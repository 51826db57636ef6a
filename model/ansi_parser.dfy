/** The older span parser: `parseAnsi` turns text into styled spans, reading
    only SGR sequences (`ESC [ params m`), and `splitCustomOsc` cuts the
    `ESC ] custom; {json}` payloads out of a stream into segments of their
    own. */
module AnsiParser {
  import opened Wrappers
  import opened Text
  import Sgr
  import JsonScan

  const Esc: char := '\U{1B}'
  const Bel: char := '\U{07}'

  /** `{ text, style }` */
  datatype Span = Span(text: string, style: Sgr.Style)

  // ---- SGR sequences -----------------------------------------------------

  predicate IsParamChar(c: char) {
    '0' <= c <= '9' || c == ';'
  }

  /** How many parameter characters `s` starts with. */
  function ParamLength(s: string): (n: nat)
    ensures n <= |s|
    ensures forall k :: 0 <= k < n ==> IsParamChar(s[k])
    ensures n < |s| ==> !IsParamChar(s[n])
  {
    if |s| > 0 && IsParamChar(s[0]) then 1 + ParamLength(s[1..]) else 0
  }

  /** The length of the match of `/\x1b\[([0-9;]*)m/` at the start of `s`.
      The parameter run is greedy and `m` is not a parameter character, so
      the longest run is the only one that can be followed by `m`. */
  function SgrLength(s: string): (r: Option<nat>)
    ensures r.Some? ==> 3 <= r.value <= |s| && s[0] == Esc && s[1] == '['
  {
    if |s| >= 2 && s[0] == Esc && s[1] == '[' then
      var n := ParamLength(s[2..]);
      if 2 + n < |s| && s[2 + n] == 'm' then Some(n + 3) else None
    else None
  }

  /** A match ends with `m` and holds only parameter characters between. */
  lemma SgrLengthShape(s: string)
    requires SgrLength(s).Some?
    ensures s[SgrLength(s).value - 1] == 'm'
    ensures forall k :: 2 <= k < SgrLength(s).value - 1 ==> IsParamChar(s[k])
  {
  }

  /** The index of the next match at or after `k` (`regex.exec` with `lastIndex == k`). */
  function NextSgr(s: string, k: nat): (r: Option<nat>)
    requires k <= |s|
    ensures r.Some? ==> k <= r.value < |s| && SgrLength(s[r.value..]).Some?
    decreases |s| - k
  {
    if k == |s| then None
    else if SgrLength(s[k..]).Some? then Some(k)
    else NextSgr(s, k + 1)
  }

  /** The match found is the first one, and none is found only when there is none. */
  lemma {:induction false} NextSgrIsFirst(s: string, k: nat)
    requires k <= |s|
    ensures NextSgr(s, k).Some? ==> forall i :: k <= i < NextSgr(s, k).value ==> SgrLength(s[i..]).None?
    ensures NextSgr(s, k).None? ==> forall i :: k <= i < |s| ==> SgrLength(s[i..]).None?
    decreases |s| - k
  {
    hide NextSgr, SgrLength;
    if k < |s| {
      NextSgrStep(s, k);
      if SgrLength(s[k..]).None? {
        NextSgrIsFirst(s, k + 1);
      }
    } else {
      NextSgrNone(s, k);
    }
  }

  /** `match[1].split(';').map(Number).filter(n => !isNaN(n))`: every piece is
      a run of digits (possibly empty, which `Number` reads as 0), so nothing
      is filtered out. */
  function Codes(params: string): (r: seq<nat>)
    requires forall k :: 0 <= k < |params| ==> IsParamChar(params[k])
    ensures |r| == |Split(params, ';')| >= 1
  {
    var pieces := Split(params, ';');
    PiecesAreDigits(params);
    seq(|pieces|, k requires 0 <= k < |pieces| => DigitsValue(pieces[k]))
  }

  /** The pieces of a parameter string are runs of digits. */
  lemma PiecesAreDigits(params: string)
    requires forall k :: 0 <= k < |params| ==> IsParamChar(params[k])
    ensures forall k, j :: 0 <= k < |Split(params, ';')| && 0 <= j < |Split(params, ';')[k]| ==>
      IsDigit(Split(params, ';')[k][j])
  {
    var pieces := Split(params, ';');
    SplitPiecesChars(params, ';');
    SplitPiecesAvoidSeparator(params, ';');
    forall k, j | 0 <= k < |pieces| && 0 <= j < |pieces[k]|
      ensures IsDigit(pieces[k][j])
    {
      var c := pieces[k][j];
      assert c in params && c != ';';
      var i :| 0 <= i < |params| && params[i] == c;
    }
  }

  /** The parameter string of a match at the start of `s`. */
  function Params(s: string): (p: string)
    requires SgrLength(s).Some?
    ensures forall k :: 0 <= k < |p| ==> IsParamChar(p[k])
  {
    SgrLengthShape(s);
    s[2..SgrLength(s).value - 1]
  }

  /** The spans of `s` when the style in force is `style`: the text before
      each match gets the style in force, and the match's codes update it. */
  function Spans(s: string, style: Sgr.Style): (r: seq<Span>)
    ensures forall k :: 0 <= k < |r| ==> |r[k].text| > 0
    decreases |s|
  {
    match NextSgr(s, 0)
    case None => if |s| > 0 then [Span(s, style)] else []
    case Some(j) =>
      var n := SgrLength(s[j..]).value;
      var next := Sgr.Apply(Sgr.Xterm, style, Codes(Params(s[j..])));
      (if j > 0 then [Span(s[..j], style)] else []) + Spans(s[j + n..], next)
  }

  /** One unfolding of `Spans` with no match left. */
  lemma SpansEnd(s: string, style: Sgr.Style)
    requires NextSgr(s, 0).None?
    ensures Spans(s, style) == if |s| > 0 then [Span(s, style)] else []
  {
    hide NextSgr, SgrLength, Sgr.Apply, Codes, Params;
  }

  /** One unfolding of `Spans` at the next match. */
  lemma SpansAt(s: string, style: Sgr.Style, j: nat)
    requires NextSgr(s, 0) == Some(j)
    ensures Spans(s, style) ==
      (if j > 0 then [Span(s[..j], style)] else []) +
      Spans(s[j + SgrLength(s[j..]).value..], Sgr.Apply(Sgr.Xterm, style, Codes(Params(s[j..]))))
  {
    hide NextSgr, SgrLength, Sgr.Apply, Codes, Params;
  }

  lemma NextSgrStep(s: string, k: nat)
    requires k < |s|
    ensures NextSgr(s, k) == if SgrLength(s[k..]).Some? then Some(k) else NextSgr(s, k + 1)
  {
  }

  /** `parseAnsi(text)` */
  function ParseAnsi(text: string): seq<Span> {
    Spans(text, Sgr.Plain)
  }

  /** `regex.exec(text)` from `lastIndex == k`. */
  method ExecSgr(text: string, k: nat) returns (r: Option<nat>)
    requires k <= |text|
    ensures r == NextSgr(text, k)
  {
    hide NextSgr, SgrLength;
    var j := k;
    while j < |text|
      invariant k <= j <= |text|
      invariant NextSgr(text, k) == NextSgr(text, j)
    {
      NextSgrStep(text, j);
      SgrLengthFirst(text[j..]);
      if j + 2 < |text| && text[j] == Esc && text[j + 1] == '[' {
        var p := j + 2;
        while p < |text| && IsParamChar(text[p])
          invariant j + 2 <= p <= |text|
          invariant forall q :: j + 2 <= q < p ==> IsParamChar(text[q])
        {
          p := p + 1;
        }
        ParamRun(text[j..], p - j);
        if p < |text| && text[p] == 'm' {
          return Some(j);
        }
      }
      j := j + 1;
    }
    NextSgrNone(text, j);
    return None;
  }

  /** Only text starting `ESC [` can start a match. */
  lemma SgrLengthFirst(s: string)
    ensures (|s| < 3 || s[0] != Esc || s[1] != '[') ==> SgrLength(s).None?
  {
  }

  /** A run of parameter characters from index 2 to `n`, ended by the text's
      end or another character, decides the match. */
  lemma ParamRun(s: string, n: nat)
    requires 2 <= n <= |s| && |s| >= 2 && s[0] == Esc && s[1] == '['
    requires forall q :: 2 <= q < n ==> IsParamChar(s[q])
    requires n == |s| || !IsParamChar(s[n])
    ensures SgrLength(s) == if n < |s| && s[n] == 'm' then Some(n + 1) else None
  {
    ParamLengthIs(s[2..], n - 2);
  }

  lemma {:induction false} ParamLengthIs(s: string, n: nat)
    requires n <= |s| && (forall q :: 0 <= q < n ==> IsParamChar(s[q]))
    requires n == |s| || !IsParamChar(s[n])
    ensures ParamLength(s) == n
    decreases n
  {
    if n > 0 {
      ParamLengthIs(s[1..], n - 1);
    }
  }

  /** Searching a suffix finds the same matches, shifted. */
  lemma {:induction false} NextSgrSuffix(s: string, l: nat, k: nat)
    requires l <= k <= |s|
    ensures NextSgr(s[l..], k - l) ==
      match NextSgr(s, k)
      case None => None
      case Some(j) => Some(j - l)
    decreases |s| - k
  {
    hide *;
    var t := s[l..];
    if k < |s| {
      NextSgrStep(s, k);
      NextSgrStep(t, k - l);
      assert t[k - l..] == s[k..];
      if SgrLength(s[k..]).None? {
        NextSgrSuffix(s, l, k + 1);
      }
    } else {
      NextSgrNone(s, k);
      NextSgrNone(t, k - l);
    }
  }

  lemma NextSgrNone(s: string, k: nat)
    requires k == |s|
    ensures NextSgr(s, k).None?
  {
  }

  /** A loop iteration of `parseAnsi`: the text from `l` to the match at `j`,
      then the rest after the match in the updated style. */
  lemma SpansFromMatch(text: string, l: nat, style: Sgr.Style, j: nat)
    requires l <= |text| && NextSgr(text, l) == Some(j)
    ensures Spans(text[l..], style) ==
      (if j > l then [Span(text[l..j], style)] else []) +
      Spans(text[j + SgrLength(text[j..]).value..], Sgr.Apply(Sgr.Xterm, style, Codes(Params(text[j..]))))
  {
    hide *;
    NextSgrSuffix(text, l, l);
    var t := text[l..];
    assert t[j - l..] == text[j..];
    SpansAt(t, style, j - l);
    assert t[..j - l] == text[l..j];
    assert t[j - l + SgrLength(text[j..]).value..] == text[j + SgrLength(text[j..]).value..];
  }

  /** The text after the last match is one span, when it is not empty. */
  lemma SpansFromEnd(text: string, l: nat, style: Sgr.Style)
    requires l <= |text| && NextSgr(text, l).None?
    ensures Spans(text[l..], style) == if l < |text| then [Span(text[l..], style)] else []
  {
    hide *;
    NextSgrSuffix(text, l, l);
    SpansEnd(text[l..], style);
  }

  /** The `while ((match = regex.exec(text)) !== null)` loop of `parseAnsi`. */
  method ParseAnsiSpans(text: string) returns (spans: seq<Span>)
    ensures spans == ParseAnsi(text)
  {
    hide NextSgr, Spans, SgrLength, ParamLength, Codes, Params;
    assert text[0..] == text;
    spans := [];
    var currentStyle := Sgr.Plain;
    var lastIndex := 0;
    var m := ExecSgr(text, 0);
    while m.Some?
      invariant lastIndex <= |text| && m == NextSgr(text, lastIndex)
      invariant spans + Spans(text[lastIndex..], currentStyle) == ParseAnsi(text)
      decreases |text| - lastIndex
    {
      var j := m.value;
      SpansFromMatch(text, lastIndex, currentStyle, j);
      var length := SgrLength(text[j..]).value;
      if j > lastIndex {
        spans := spans + [Span(text[lastIndex..j], currentStyle)];
      }
      currentStyle := Sgr.ApplyCodes(Sgr.Xterm, currentStyle, Codes(Params(text[j..])));
      lastIndex := j + length;
      m := ExecSgr(text, lastIndex);
    }
    SpansFromEnd(text, lastIndex, currentStyle);
    if lastIndex < |text| {
      spans := spans + [Span(text[lastIndex..], currentStyle)];
    }
  }

  // ---- Properties of parseAnsi ----------------------------------------------

  /** Text with no SGR match in it. */
  predicate NoSgr(s: string) {
    forall i :: 0 <= i < |s| ==> SgrLength(s[i..]).None?
  }

  /** Without an SGR sequence the whole text is one span in the style in
      force, and the empty text has no spans. */
  lemma PlainSpans(s: string, style: Sgr.Style)
    requires NoSgr(s)
    ensures Spans(s, style) == if |s| > 0 then [Span(s, style)] else []
  {
  }

  /** Text without an escape character has no SGR match. */
  lemma NoEscapeNoSgr(s: string)
    requires Esc !in s
    ensures NoSgr(s)
  {
    forall i | 0 <= i < |s|
      ensures SgrLength(s[i..]).None?
    {
      assert s[i..][0] == s[i];
    }
  }

  /** Plain text gives one span with an empty style; empty input gives no spans. */
  lemma PlainText(s: string)
    requires Esc !in s
    ensures ParseAnsi(s) == if |s| > 0 then [Span(s, Sgr.Plain)] else []
  {
    NoEscapeNoSgr(s);
    PlainSpans(s, Sgr.Plain);
  }

  /** The match `ESC [ params m`. */
  function SgrSequence(params: string): string {
    [Esc, '['] + params + ['m']
  }

  lemma SgrSequenceLength(params: string, rest: string)
    requires forall k :: 0 <= k < |params| ==> IsParamChar(params[k])
    ensures SgrLength(SgrSequence(params) + rest) == Some(|params| + 3)
    ensures Params(SgrSequence(params) + rest) == params
  {
    var s := SgrSequence(params) + rest;
    ParamPrefix(params, ['m'] + rest);
    assert s[2..] == params + (['m'] + rest);
    assert s[2 + |params|] == 'm';
  }

  lemma {:induction false} ParamPrefix(params: string, rest: string)
    requires forall k :: 0 <= k < |params| ==> IsParamChar(params[k])
    requires |rest| > 0 && !IsParamChar(rest[0])
    ensures ParamLength(params + rest) == |params|
    decreases |params|
  {
    if |params| == 0 {
      assert params + rest == rest;
    } else {
      assert (params + rest)[1..] == params[1..] + rest;
      ParamPrefix(params[1..], rest);
    }
  }

  /** A sequence at the front of the text produces no span of its own: the
      rest is read in the style its codes give. Applied twice, this is the
      accumulation of styles across sequences. */
  lemma LeadingSgr(params: string, rest: string, style: Sgr.Style)
    requires forall k :: 0 <= k < |params| ==> IsParamChar(params[k])
    ensures Spans(SgrSequence(params) + rest, style) ==
      Spans(rest, Sgr.Apply(Sgr.Xterm, style, Codes(params)))
  {
    var s := SgrSequence(params) + rest;
    SgrSequenceLength(params, rest);
    assert s[0..] == s;
    assert NextSgr(s, 0) == Some(0);
    assert s[|params| + 3..] == rest;
  }

  /** `ESC[m` has the single empty parameter, which `Number` reads as 0: a reset. */
  lemma EmptySequenceResets(rest: string, style: Sgr.Style)
    ensures Spans(SgrSequence("") + rest, style) == Spans(rest, Sgr.Plain)
  {
    LeadingSgr("", rest, style);
    assert Codes("") == [0];
  }

  /** `ESC[1;31m` then plain text: one bold red span. */
  lemma BoldRedSpan(t: string)
    requires |t| > 0 && Esc !in t
    ensures ParseAnsi(SgrSequence("1;31") + t) ==
      [Span(t, Sgr.Plain.(bold := true, color := Some("#f44747")))]
  {
    hide Spans, Sgr.Apply;
    assert ParseAnsi(SgrSequence("1;31") + t) == Spans(SgrSequence("1;31") + t, Sgr.Plain);
    LeadingSgr("1;31", t, Sgr.Plain);
    assert Split("1;31", ';') == ["1", "31"] by {
      assert "1;31" == "1" + [';'] + "31";
      SplitAppend("1", "31", ';');
      SplitWithoutSeparator("1", ';');
      SplitWithoutSeparator("31", ';');
    }
    assert DigitsValue("31") == 31 by {
      assert "31"[..1] == "3";
      assert "3"[..0] == "";
    }
    assert DigitsValue("1") == 1 by {
      assert "1"[..0] == "";
    }
    assert Codes("1;31") == [1, 31];
    Sgr.BoldRed(Sgr.Xterm);
    NoEscapeNoSgr(t);
    PlainSpans(t, Sgr.Plain.(bold := true, color := Some("#f44747")));
  }

  /** The text with every SGR match removed, read left to right. */
  function Visible(s: string): string
    decreases |s|
  {
    if |s| == 0 then ""
    else match SgrLength(s)
      case Some(n) => Visible(s[n..])
      case None => [s[0]] + Visible(s[1..])
  }

  lemma VisibleAtSgr(s: string)
    requires SgrLength(s).Some?
    ensures Visible(s) == Visible(s[SgrLength(s).value..])
  {
  }

  lemma VisibleAtChar(s: string)
    requires |s| > 0 && SgrLength(s).None?
    ensures Visible(s) == [s[0]] + Visible(s[1..])
  {
  }

  /** The spans' texts, joined. */
  function Joined(spans: seq<Span>): string {
    if |spans| == 0 then "" else spans[0].text + Joined(spans[1..])
  }

  lemma {:induction false} JoinedAppend(a: seq<Span>, b: seq<Span>)
    ensures Joined(a + b) == Joined(a) + Joined(b)
    decreases |a|
  {
    if |a| == 0 {
      assert a + b == b;
    } else {
      assert (a + b)[1..] == a[1..] + b;
      JoinedAppend(a[1..], b);
    }
  }

  lemma VisibleNil()
    ensures Visible("") == ""
  {
  }

  lemma JoinedNil()
    ensures Joined([]) == ""
  {
  }

  lemma JoinedOne(t: string, style: Sgr.Style)
    ensures Joined([Span(t, style)]) == t
  {
    assert Joined([Span(t, style)]) == t + Joined([]);
  }

  /** Up to the next match, the visible text is the text itself. */
  lemma {:induction false} VisibleUntil(s: string, k: nat, j: nat)
    requires k <= j <= |s|
    requires forall i :: k <= i < j ==> SgrLength(s[i..]).None?
    ensures Visible(s[k..]) == s[k..j] + Visible(s[j..])
    decreases j - k
  {
    hide Visible;
    if k < j {
      assert SgrLength(s[k..]).None?;
      VisibleAtChar(s[k..]);
      assert s[k..][1..] == s[k + 1..];
      VisibleUntil(s, k + 1, j);
      assert s[k..j] == [s[k]] + s[k + 1..j];
    }
  }

  /** The spans cover exactly the visible text: no character outside a
      match is lost, duplicated or moved, whatever the styles. */
  lemma {:induction false} SpansCoverVisible(s: string, style: Sgr.Style)
    ensures Joined(Spans(s, style)) == Visible(s)
    decreases |s|
  {
    hide *;
    match NextSgr(s, 0)
    case None =>
      CoverToEnd(s, style);
    case Some(j) =>
      CoverToMatch(s, style, j);
      var n := SgrLength(s[j..]).value;
      SpansCoverVisible(s[j + n..], Sgr.Apply(Sgr.Xterm, style, Codes(Params(s[j..]))));
  }

  /** With no match left, both sides are the text itself. */
  lemma CoverToEnd(s: string, style: Sgr.Style)
    requires NextSgr(s, 0).None?
    ensures Joined(Spans(s, style)) == Visible(s)
  {
    hide Visible, Spans, NextSgr, Joined;
    NextSgrIsFirst(s, 0);
    SpansEnd(s, style);
    VisibleUntil(s, 0, |s|);
    assert s[0..] == s;
    assert s[0..|s|] == s;
    assert s[|s|..] == "";
    VisibleNil();
    if |s| > 0 {
      JoinedOne(s, style);
    } else {
      JoinedNil();
    }
  }

  /** Up to the next match, both sides are the text before it; after it,
      both go on from the end of the match. */
  lemma CoverToMatch(s: string, style: Sgr.Style, j: nat)
    requires NextSgr(s, 0) == Some(j)
    ensures Visible(s) == s[..j] + Visible(s[j + SgrLength(s[j..]).value..])
    ensures Joined(Spans(s, style)) == s[..j] +
      Joined(Spans(s[j + SgrLength(s[j..]).value..], Sgr.Apply(Sgr.Xterm, style, Codes(Params(s[j..])))))
  {
    hide Visible, Spans, NextSgr, Joined;
    NextSgrIsFirst(s, 0);
    assert s[0..] == s;
    var n := SgrLength(s[j..]).value;
    var next := Sgr.Apply(Sgr.Xterm, style, Codes(Params(s[j..])));
    var head: seq<Span> := if j > 0 then [Span(s[..j], style)] else [];
    SpansAt(s, style, j);
    VisibleAtSgr(s[j..]);
    JoinedAppend(head, Spans(s[j + n..], next));
    VisibleUntil(s, 0, j);
    assert s[j..][n..] == s[j + n..];
    if j > 0 {
      JoinedOne(s[..j], style);
    } else {
      JoinedNil();
    }
    assert s[0..j] == s[..j];
  }

  // ---- splitCustomOsc --------------------------------------------------------

  /** `'\x1b]custom;'` */
  const Prefix: string := [Esc, ']', 'c', 'u', 's', 't', 'o', 'm', ';']

  /** What `JSON.parse` makes of a payload: a value, with whether its `type`
      field is a non-empty string, or the message of the `SyntaxError`. */
  datatype JsonOutcome = Parsed(payload: JsonScan.Json, typed: bool) | Unparsable(message: string)

  /** `ParsedSegment` */
  datatype Segment =
    | TextSegment(spans: seq<Span>)
    | CustomSegment(payload: JsonScan.Json)
    | ErrorSegment(message: string, raw: string)

  const MissingType: string := "Missing \"type\" field"

  /** The segment a complete payload becomes. */
  function PayloadSegment(o: JsonOutcome, raw: string): (r: Segment)
    ensures r.CustomSegment? <==> o.Parsed? && o.typed
    ensures r.ErrorSegment? ==> r.raw == raw
    ensures !r.TextSegment?
  {
    match o
    case Parsed(p, typed) => if typed then CustomSegment(p) else ErrorSegment(MissingType, raw)
    case Unparsable(m) => ErrorSegment(m, raw)
  }

  /** `parseAnsi(t)` as a segment, when it has spans. */
  function TextSegments(t: string): (r: seq<Segment>)
    ensures |r| <= 1 && forall k :: 0 <= k < |r| ==> r[k].TextSegment? && |r[k].spans| > 0
  {
    var spans := ParseAnsi(t);
    if |spans| > 0 then [TextSegment(spans)] else []
  }

  predicate PrefixAt(s: string, i: nat) {
    i + |Prefix| <= |s| && s[i..i + |Prefix|] == Prefix
  }

  /** `text.indexOf(CUSTOM_OSC_PREFIX, k)` */
  function FindPrefix(s: string, k: nat): (r: Option<nat>)
    requires k <= |s|
    ensures r.Some? ==> k <= r.value && PrefixAt(s, r.value)
    ensures r.Some? ==> forall i :: k <= i < r.value ==> !PrefixAt(s, i)
    ensures r.None? ==> forall i :: k <= i ==> !PrefixAt(s, i)
    decreases |s| - k
  {
    if k + |Prefix| > |s| then None
    else if PrefixAt(s, k) then Some(k)
    else FindPrefix(s, k + 1)
  }

  /** Where the scan resumes after a payload ending at `e`: one past a BEL,
      an `ESC \`, or a newline, if one follows. */
  function AfterTerminator(s: string, e: nat): (r: nat)
    requires e <= |s|
    ensures e <= r <= |s|
  {
    if e < |s| && s[e] == Bel then e + 1
    else if e + 2 <= |s| && s[e..e + 2] == [Esc, '\\'] then e + 2
    else if e < |s| && s[e] == '\n' then e + 1
    else e
  }

  /** The text segment before a prefix found at `p`, if the prefix is not
      at the start. */
  function Before(s: string, p: nat): (r: seq<Segment>)
    requires p <= |s|
    ensures |r| <= 1 && forall k :: 0 <= k < |r| ==> r[k].TextSegment? && |r[k].spans| > 0
  {
    if p > 0 then TextSegments(s[..p]) else []
  }

  /** The segments of `s` (the text from `lastIndex` on) when the search
      resumes `skip` characters in (`searchIndex - lastIndex`). */
  function Segments(s: string, skip: nat, parse: string -> JsonOutcome): (r: seq<Segment>)
    requires skip <= |s|
    ensures forall k :: 0 <= k < |r| && r[k].TextSegment? ==> |r[k].spans| > 0
    decreases |s| - skip
  {
    var found := if skip < |s| then FindPrefix(s, skip) else None;
    match found
    case None => TextSegments(s)
    case Some(p) =>
      match JsonScan.ExtractJson(s, p + |Prefix|)
      case None => Before(s, p) + Segments(s[p..], |Prefix|, parse)
      case Some(x) =>
        var e := AfterTerminator(s, x.endIndex);
        Before(s, p) + [PayloadSegment(parse(x.json), s[p..x.endIndex])] + Segments(s[e..], 0, parse)
  }

  /** No further prefix: the rest is text. */
  lemma SegmentsEnd(s: string, skip: nat, parse: string -> JsonOutcome)
    requires skip <= |s| && (skip == |s| || FindPrefix(s, skip).None?)
    ensures Segments(s, skip, parse) == TextSegments(s)
  {
  }

  /** A prefix without a balanced object: the search resumes after it, and
      the prefix stays at the head of the remaining text. */
  lemma SegmentsUnterminated(s: string, skip: nat, p: nat, parse: string -> JsonOutcome)
    requires skip < |s| && FindPrefix(s, skip) == Some(p)
    requires JsonScan.ExtractJson(s, p + |Prefix|).None?
    ensures Segments(s, skip, parse) == Before(s, p) + Segments(s[p..], |Prefix|, parse)
  {
  }

  /** A complete payload: its segment, then the text after its terminator. */
  lemma SegmentsPayload(s: string, skip: nat, p: nat, x: JsonScan.Extracted, parse: string -> JsonOutcome)
    requires skip < |s| && FindPrefix(s, skip) == Some(p)
    requires JsonScan.ExtractJson(s, p + |Prefix|) == Some(x)
    ensures Segments(s, skip, parse) ==
      Before(s, p) + [PayloadSegment(parse(x.json), s[p..x.endIndex])] + Segments(s[AfterTerminator(s, x.endIndex)..], 0, parse)
  {
  }

  /** `splitCustomOsc(text)` */
  function SplitCustomOsc(text: string, parse: string -> JsonOutcome): seq<Segment> {
    Segments(text, 0, parse)
  }

  /** The `indexOf` search. */
  method IndexOfPrefix(text: string, k: nat) returns (r: Option<nat>)
    requires k <= |text|
    ensures r == FindPrefix(text, k)
  {
    var i := k;
    while i + |Prefix| <= |text|
      invariant k <= i <= |text|
      invariant FindPrefix(text, k) == FindPrefix(text, i)
    {
      if text[i..i + |Prefix|] == Prefix {
        return Some(i);
      }
      i := i + 1;
    }
    return None;
  }

  lemma FindPrefixStep(s: string, k: nat)
    requires k <= |s|
    ensures FindPrefix(s, k) ==
      if k + |Prefix| > |s| then None else if PrefixAt(s, k) then Some(k) else FindPrefix(s, k + 1)
  {
  }

  lemma {:induction false} FindPrefixSuffix(s: string, l: nat, k: nat)
    requires l <= k <= |s|
    ensures FindPrefix(s[l..], k - l) ==
      match FindPrefix(s, k)
      case None => None
      case Some(i) => Some(i - l)
    decreases |s| - k
  {
    hide FindPrefix, PrefixAt;
    var t := s[l..];
    FindPrefixStep(s, k);
    FindPrefixStep(t, k - l);
    if k + |Prefix| <= |s| {
      PrefixAtSuffix(s, l, k);
      FindPrefixSuffix(s, l, k + 1);
    }
  }

  lemma PrefixAtSuffix(s: string, l: nat, k: nat)
    requires l <= k && k + |Prefix| <= |s|
    ensures PrefixAt(s[l..], k - l) == PrefixAt(s, k)
  {
    assert s[l..][k - l..k - l + |Prefix|] == s[k..k + |Prefix|];
  }

  /** The terminator skip read on a suffix of the text. */
  lemma AfterTerminatorSuffix(text: string, l: nat, e: nat)
    requires l <= e <= |text|
    ensures AfterTerminator(text[l..], e - l) == AfterTerminator(text, e) - l
  {
    if e + 2 <= |text| {
      assert text[l..][e - l..e - l + 2] == text[e..e + 2];
    }
  }

  /** An iteration of the loop, read on the text from `lastIndex` on. */
  lemma LoopPayload(text: string, l: nat, si: nat, p: nat, x: JsonScan.Extracted, parse: string -> JsonOutcome)
    requires l <= si < |text| && FindPrefix(text, si) == Some(p)
    requires JsonScan.ExtractJson(text, p + |Prefix|) == Some(x)
    ensures Segments(text[l..], si - l, parse) ==
      (if p > l then TextSegments(text[l..p]) else []) +
      [PayloadSegment(parse(x.json), text[p..x.endIndex])] +
      Segments(text[AfterTerminator(text, x.endIndex)..], 0, parse)
  {
    hide Segments, FindPrefix, JsonScan.ExtractJson, TextSegments, AfterTerminator;
    var s := text[l..];
    FindPrefixSuffix(text, l, si);
    JsonScan.ExtractJsonSuffix(text, l, p + |Prefix|);
    SegmentsPayload(s, si - l, p - l, JsonScan.Extracted(x.json, x.endIndex - l), parse);
    assert s[..p - l] == text[l..p];
    assert s[p - l..x.endIndex - l] == text[p..x.endIndex];
    AfterTerminatorSuffix(text, l, x.endIndex);
    assert s[AfterTerminator(text, x.endIndex) - l..] == text[AfterTerminator(text, x.endIndex)..];
  }

  lemma LoopUnterminated(text: string, l: nat, si: nat, p: nat, parse: string -> JsonOutcome)
    requires l <= si < |text| && FindPrefix(text, si) == Some(p)
    requires JsonScan.ExtractJson(text, p + |Prefix|).None?
    ensures Segments(text[l..], si - l, parse) ==
      (if p > l then TextSegments(text[l..p]) else []) + Segments(text[p..], |Prefix|, parse)
  {
    hide Segments, FindPrefix, JsonScan.ExtractJson, TextSegments;
    var s := text[l..];
    FindPrefixSuffix(text, l, si);
    JsonScan.ExtractJsonSuffix(text, l, p + |Prefix|);
    SegmentsUnterminated(s, si - l, p - l, parse);
    assert s[..p - l] == text[l..p];
    assert s[p - l..] == text[p..];
  }

  lemma LoopEnd(text: string, l: nat, si: nat, parse: string -> JsonOutcome)
    requires l <= si <= |text| && (si == |text| || FindPrefix(text, si).None?)
    ensures Segments(text[l..], si - l, parse) == TextSegments(text[l..])
  {
    if si < |text| {
      FindPrefixSuffix(text, l, si);
    }
    SegmentsEnd(text[l..], si - l, parse);
  }

  /** The main loop of `splitCustomOsc`. */
  method SplitCustomOscSegments(text: string, parse: string -> JsonOutcome) returns (segments: seq<Segment>)
    ensures segments == SplitCustomOsc(text, parse)
  {
    hide Segments, FindPrefix, JsonScan.ExtractJson, Spans;
    segments := [];
    var lastIndex: nat, searchIndex: nat := 0, 0;
    assert text[0..] == text;
    while searchIndex < |text|
      invariant lastIndex <= searchIndex <= |text|
      invariant segments + Segments(text[lastIndex..], searchIndex - lastIndex, parse) == SplitCustomOsc(text, parse)
      decreases |text| - searchIndex
    {
      var found := IndexOfPrefix(text, searchIndex);
      if found.None? {
        break;
      }
      var prefixIndex := found.value;
      ghost var before: seq<Segment> := if prefixIndex > lastIndex then TextSegments(text[lastIndex..prefixIndex]) else [];
      ghost var prior := segments;
      if prefixIndex > lastIndex {
        var spans := ParseAnsiSpans(text[lastIndex..prefixIndex]);
        if |spans| > 0 {
          segments := segments + [TextSegment(spans)];
        }
        assert segments == prior + before;
      }
      var jsonStart := prefixIndex + |Prefix|;
      var result := JsonScan.ScanJson(text, jsonStart);
      if result.Some? {
        LoopPayload(text, lastIndex, searchIndex, prefixIndex, result.value, parse);
        segments := segments + [PayloadSegment(parse(result.value.json), text[prefixIndex..result.value.endIndex])];
        var endIndex := result.value.endIndex;
        if endIndex < |text| && text[endIndex] == Bel {
          endIndex := endIndex + 1;
        } else if endIndex + 2 <= |text| && text[endIndex..endIndex + 2] == [Esc, '\\'] {
          endIndex := endIndex + 2;
        } else if endIndex < |text| && text[endIndex] == '\n' {
          endIndex := endIndex + 1;
        }
        assert endIndex == AfterTerminator(text, result.value.endIndex);
        lastIndex, searchIndex := endIndex, endIndex;
      } else {
        LoopUnterminated(text, lastIndex, searchIndex, prefixIndex, parse);
        searchIndex := jsonStart;
        lastIndex := prefixIndex;
      }
    }
    LoopEnd(text, lastIndex, searchIndex, parse);
    if lastIndex < |text| {
      var spans := ParseAnsiSpans(text[lastIndex..]);
      if |spans| > 0 {
        segments := segments + [TextSegment(spans)];
      }
    } else {
      PlainText(text[lastIndex..]);
    }
  }

  // ---- Properties of splitCustomOsc --------------------------------------------

  /** A terminator the scan consumes after a payload. */
  predicate Terminator(t: string) {
    t == [Bel] || t == [Esc, '\\'] || t == "\n"
  }

  /** Text with no custom prefix in it is one text segment (none when it has no spans). */
  lemma NoCustomOsc(text: string, parse: string -> JsonOutcome)
    requires forall i :: !PrefixAt(text, i)
    ensures SplitCustomOsc(text, parse) == TextSegments(text)
  {
    if |text| > 0 {
      SegmentsEnd(text, 0, parse);
    }
  }

  /** No escape character in `a` means the first prefix of `a + Prefix + b` is
      the one after `a`. */
  lemma FirstPrefixAfter(a: string, b: string)
    requires Esc !in a
    ensures FindPrefix(a + Prefix + b, 0) == Some(|a|)
  {
    var s := a + Prefix + b;
    forall i | 0 <= i < |a|
      ensures !PrefixAt(s, i)
    {
      assert s[i] == a[i];
    }
    assert s[|a|..|a| + |Prefix|] == Prefix;
    assert PrefixAt(s, |a|);
  }

  /** A complete payload splits the stream: the text before it, then its
      segment (custom or error, carrying the prefix and the JSON as raw
      text), then whatever follows its terminator. */
  lemma PayloadSplits(a: string, json: string, term: string, b: string, parse: string -> JsonOutcome)
    requires Esc !in a && JsonScan.IsObject(json) && Terminator(term)
    ensures SplitCustomOsc(a + Prefix + json + term + b, parse) ==
      TextSegments(a) + [PayloadSegment(parse(json), Prefix + json)] + SplitCustomOsc(b, parse)
  {
    hide Segments, FindPrefix, JsonScan.ExtractJson, Spans, ParseAnsi, TextSegments, AfterTerminator, Before, PayloadSegment;
    PayloadStep(a, json, term, b, parse);
    PayloadPieces(a, json, term, b);
  }

  /** The loop's payload step at the first prefix of `a + Prefix + json + term + b`. */
  lemma PayloadStep(a: string, json: string, term: string, b: string, parse: string -> JsonOutcome)
    requires Esc !in a && JsonScan.IsObject(json) && Terminator(term)
    ensures Segments(a + Prefix + json + term + b, 0, parse) ==
      Before(a + Prefix + json + term + b, |a|) +
      [PayloadSegment(parse(json), (a + Prefix + json + term + b)[|a|..|a| + |Prefix| + |json|])] +
      Segments((a + Prefix + json + term + b)[|a| + |Prefix| + |json| + |term|..], 0, parse)
  {
    hide Segments, FindPrefix, JsonScan.ExtractJson, Spans, ParseAnsi, TextSegments, Before, PayloadSegment;
    var s := a + Prefix + json + term + b;
    var e := |a| + |Prefix| + |json|;
    PayloadLocated(a, json, term, b);
    SegmentsPayload(s, 0, |a|, JsonScan.Extracted(json, e), parse);
    TerminatorSkipped(a + Prefix + json, term, b);
  }

  /** The pieces of `a + Prefix + json + term + b` the payload step names. */
  lemma PayloadPieces(a: string, json: string, term: string, b: string)
    requires Esc !in a
    ensures Before(a + Prefix + json + term + b, |a|) == TextSegments(a)
    ensures (a + Prefix + json + term + b)[|a|..|a| + |Prefix| + |json|] == Prefix + json
    ensures (a + Prefix + json + term + b)[|a| + |Prefix| + |json| + |term|..] == b
  {
    var s := a + Prefix + json + term + b;
    if |a| > 0 {
      assert s[..|a|] == a;
    } else {
      PlainText(a);
    }
  }

  /** The first prefix is the one after `a`, and the object after it is found whole. */
  lemma PayloadLocated(a: string, json: string, term: string, b: string)
    requires Esc !in a && JsonScan.IsObject(json)
    ensures FindPrefix(a + Prefix + json + term + b, 0) == Some(|a|)
    ensures JsonScan.ExtractJson(a + Prefix + json + term + b, |a| + |Prefix|) ==
      Some(JsonScan.Extracted(json, |a| + |Prefix| + |json|))
  {
    hide FindPrefix, JsonScan.ExtractJson;
    var s := a + Prefix + json + term + b;
    var js := |a| + |Prefix|;
    assert s == a + Prefix + (json + term + b);
    FirstPrefixAfter(a, json + term + b);
    assert s[js..] == json + (term + b);
    JsonScan.ObjectThen(json, term + b);
    JsonScan.ExtractJsonSuffix(s, js, js);
  }

  /** A terminator after index `|pre|` is consumed. */
  lemma TerminatorSkipped(pre: string, term: string, b: string)
    requires Terminator(term)
    ensures AfterTerminator(pre + term + b, |pre|) == |pre| + |term|
  {
    var s := pre + term + b;
    var e := |pre|;
    assert s[e] == term[0];
    if term == [Esc, '\\'] {
      assert s[e..e + 2] == term;
    }
  }

  /** A prefix without a balanced object after it stays in the text, and the
      search resumes after the prefix: the text before it and the text from
      the prefix on come out as two text segments. */
  lemma UnterminatedPayloadKept(a: string, b: string, parse: string -> JsonOutcome)
    requires Esc !in a && Esc !in b && (|b| == 0 || b[0] != '{')
    ensures SplitCustomOsc(a + Prefix + b, parse) == TextSegments(a) + TextSegments(Prefix + b)
  {
    hide Segments, FindPrefix, JsonScan.ExtractJson, Spans, ParseAnsi, TextSegments;
    var s := a + Prefix + b;
    var p := |a|;
    var t := Prefix + b;
    FirstPrefixAfter(a, b);
    assert s[p..] == t;
    assert JsonScan.ExtractJson(s, p + |Prefix|).None? by {
      JsonScan.ExtractJsonSuffix(s, p + |Prefix|, p + |Prefix|);
      assert s[p + |Prefix|..] == b;
      JsonScan.NotAnObjectStart(b);
    }
    SegmentsUnterminated(s, 0, p, parse);
    NoLaterPrefix(b);
    SegmentsEnd(t, |Prefix|, parse);
    if p > 0 {
      assert s[..p] == a;
    } else {
      PlainText(a);
      EmptyTextSegments(a);
    }
    assert Before(s, p) == TextSegments(a);
  }

  lemma EmptyTextSegments(a: string)
    requires ParseAnsi(a) == []
    ensures TextSegments(a) == []
  {
  }

  /** After the prefix, an escape-free text holds no further prefix. */
  lemma NoLaterPrefix(b: string)
    requires Esc !in b
    ensures |Prefix + b| == |Prefix| || FindPrefix(Prefix + b, |Prefix|).None?
  {
    var t := Prefix + b;
    forall i | |Prefix| <= i
      ensures !PrefixAt(t, i)
    {
      if i < |t| {
        assert t[i] == b[i - |Prefix|];
      }
    }
    NoPrefixFrom(t, |Prefix|);
  }

  /** The kept prefix is ordinary text to the span parser: one unstyled span. */
  lemma KeptPrefixIsPlain(b: string)
    requires Esc !in b
    ensures ParseAnsi(Prefix + b) == [Span(Prefix + b, Sgr.Plain)]
  {
    var t := Prefix + b;
    forall i | 0 <= i < |t|
      ensures SgrLength(t[i..]).None?
    {
      if i > 0 {
        assert t[i..][0] == t[i];
        if i >= |Prefix| {
          assert t[i] == b[i - |Prefix|];
        }
      } else {
        assert t[0..][1] == ']';
      }
    }
    PlainSpans(t, Sgr.Plain);
  }

  lemma NoPrefixFrom(t: string, k: nat)
    requires k <= |t| && forall i :: k <= i ==> !PrefixAt(t, i)
    ensures k == |t| || FindPrefix(t, k).None?
  {
  }
}
