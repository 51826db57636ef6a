/** The terminal's control-sequence parser `parseAnsiStream`: it turns a
    stream of characters into screen actions. It recognises CR, LF and BS,
    the control sequences CUU, CUD, CUF, CUB, CUP/HVP, ED, EL and SGR
    (section 5.4 of ECMA-48 for their syntax), and one private OSC control
    string (section 5.6), `ESC ] custom;` followed by a JSON object. Any
    other escape loses only its ESC; what follows it is ordinary text. The
    JSON parser is a parameter. */
module AnsiProcessor {
  import opened Wrappers
  import opened Text
  import JsonScan

  const Esc: char := '\U{1B}'
  const Bel: char := '\U{07}'
  const Backspace: char := '\U{08}'

  /** `AnsiAction`; a custom control string carries the value `JSON.parse` gave. */
  datatype AnsiAction =
    | TextRun(text: string)
    | Sgr(codes: seq<nat>)
    | Cuu(n: nat)
    | Cud(n: nat)
    | Cuf(n: nat)
    | Cub(n: nat)
    | Cup(row: nat, col: nat)
    | Ed(n: nat)
    | El(n: nat)
    | Cr
    | Lf
    | Bs
    | Custom(payload: JsonScan.Json)

  // ---- CSI -------------------------------------------------------------

  predicate IsParamChar(c: char) {
    '0' <= c <= '9' || c == ';'
  }

  /** How many parameter characters `s` starts with. */
  function ParamLength(s: string): (n: nat)
    ensures n <= |s|
    ensures forall k :: 0 <= k < n ==> IsParamChar(s[k])
    ensures n < |s| ==> !IsParamChar(s[n])
  {
    if |s| > 0 && IsParamChar(s[0]) then 1 + ParamLength(s[1..]) else 0
  }

  /** How many decimal digits `s` starts with. */
  function DigitLength(s: string): (n: nat)
    ensures n <= |s| && forall k :: 0 <= k < n ==> IsDigit(s[k])
  {
    if |s| > 0 && IsDigit(s[0]) then 1 + DigitLength(s[1..]) else 0
  }

  /** `parseInt(piece, 10) || 0` for a piece without a sign: the value of its
      leading digits, and 0 when there are none. */
  function ParseIntOrZero(piece: string): nat {
    DigitsValue(piece[..DigitLength(piece)])
  }

  /** `params ? params.split(';').map(n => parseInt(n, 10) || 0) : []` */
  function Numbers(params: string): (r: seq<nat>)
    ensures params == "" <==> r == []
  {
    if params == "" then []
    else
      var pieces := Split(params, ';');
      seq(|pieces|, k requires 0 <= k < |pieces| => ParseIntOrZero(pieces[k]))
  }

  /** `numbers[k] || d`: an absent or zero parameter takes the default. */
  function Param(numbers: seq<nat>, k: nat, d: nat): (r: nat)
    ensures k < |numbers| && numbers[k] != 0 ==> r == numbers[k]
    ensures k >= |numbers| || numbers[k] == 0 ==> r == d
  {
    if k < |numbers| && numbers[k] != 0 then numbers[k] else d
  }

  /** The final bytes the parser supports. */
  predicate IsFinal(c: char) {
    c in "mABCDHfJK"
  }

  /** The action of a complete sequence with final byte `cmd`. */
  function CsiAction(cmd: char, numbers: seq<nat>): (r: Option<AnsiAction>)
    ensures r.Some? <==> IsFinal(cmd)
  {
    if cmd == 'm' then Some(Sgr(if |numbers| > 0 then numbers else [0]))
    else if cmd == 'A' then Some(Cuu(Param(numbers, 0, 1)))
    else if cmd == 'B' then Some(Cud(Param(numbers, 0, 1)))
    else if cmd == 'C' then Some(Cuf(Param(numbers, 0, 1)))
    else if cmd == 'D' then Some(Cub(Param(numbers, 0, 1)))
    else if cmd == 'H' || cmd == 'f' then Some(Cup(Param(numbers, 0, 1) - 1, Param(numbers, 1, 1) - 1))
    else if cmd == 'J' then Some(Ed(Param(numbers, 0, 0)))
    else if cmd == 'K' then Some(El(Param(numbers, 0, 0)))
    else None
  }

  /** `parseCSI` on the text after `ESC [`: the action and how many
      characters it used, or `None` for a truncated or unsupported sequence. */
  function Csi(s: string): (r: Option<(AnsiAction, nat)>)
    ensures r.Some? ==> 0 < r.value.1 <= |s|
    ensures r.Some? <==> ParamLength(s) < |s| && IsFinal(s[ParamLength(s)])
    ensures r.Some? ==> !r.value.0.TextRun?
  {
    var n := ParamLength(s);
    if n >= |s| then None
    else match CsiAction(s[n], Numbers(s[..n]))
      case None => None
      case Some(a) => Some((a, n + 1))
  }

  /** The loop of `parseCSI`. */
  method ScanCsi(s: string) returns (r: Option<(AnsiAction, nat)>)
    ensures r == Csi(s)
  {
    var i := 0;
    var params := "";
    while i < |s| && IsParamChar(s[i])
      invariant 0 <= i <= ParamLength(s) && params == s[..i]
      invariant ParamLength(s[i..]) == ParamLength(s) - i
    {
      params := params + [s[i]];
      i := i + 1;
      assert s[i - 1..][1..] == s[i..];
    }
    if i >= |s| {
      return None;
    }
    var action := CsiAction(s[i], Numbers(params));
    if action.None? {
      return None;
    }
    return Some((action.value, i + 1));
  }

  // ---- OSC -------------------------------------------------------------

  const CustomTag: string := "custom;"

  /** The string terminator `ESC \`. */
  const St: string := [Esc, '\\']

  /** The end index after an optional BEL or ST terminator at `e`. */
  function SkipTerminator(s: string, e: nat): (r: nat)
    requires e <= |s|
    ensures e <= r <= |s|
  {
    if e < |s| && s[e] == Bel then e + 1
    else if e + 2 <= |s| && s[e..e + 2] == St then e + 2
    else e
  }

  /** `parseOSC` on the text after `ESC ]`: only `custom;` followed by a
      balanced object the JSON parser accepts is recognised. Every other
      control string gives `None`: the source scans for its terminator but
      returns `null` whether or not it finds one. */
  function Osc(s: string, parse: string -> Option<JsonScan.Json>): (r: Option<(AnsiAction, nat)>)
    ensures r.Some? ==> 0 < r.value.1 <= |s| && r.value.0.Custom?
    ensures r.Some? ==> CustomTag <= s && JsonScan.ExtractJson(s, |CustomTag|).Some?
  {
    if |s| >= |CustomTag| && s[..|CustomTag|] == CustomTag then
      match JsonScan.ExtractJson(s, |CustomTag|)
      case None => None
      case Some(x) =>
        match parse(x.json)
        case None => None
        case Some(p) => Some((Custom(p), SkipTerminator(s, x.endIndex)))
    else None
  }

  /** `parseOSC`, with its scan for the terminator of other control strings. */
  method ScanOsc(s: string, parse: string -> Option<JsonScan.Json>) returns (r: Option<(AnsiAction, nat)>)
    ensures r == Osc(s, parse)
  {
    if |s| >= |CustomTag| && s[..|CustomTag|] == CustomTag {
      var result := JsonScan.ScanJson(s, |CustomTag|);
      if result.Some? {
        var endIndex := result.value.endIndex;
        if endIndex < |s| && s[endIndex] == Bel {
          endIndex := endIndex + 1;
        } else if endIndex + 2 <= |s| && s[endIndex..endIndex + 2] == St {
          endIndex := endIndex + 2;
        }
        var payload := parse(result.value.json);
        if payload.None? {
          return None;
        }
        return Some((Custom(payload.value), endIndex));
      }
    }
    var i := 0;
    while i < |s|
      invariant 0 <= i <= |s|
    {
      if s[i] == Bel || (i + 2 <= |s| && s[i..i + 2] == St) {
        return None;
      }
      i := i + 1;
    }
    return None;
  }

  // ---- The stream ------------------------------------------------------

  /** The escape sequence at the front of `s` (which starts with ESC): its
      action and length, or `None` when only the ESC is to be dropped. */
  function Escape(s: string, parse: string -> Option<JsonScan.Json>): (r: Option<(AnsiAction, nat)>)
    requires |s| > 0 && s[0] == Esc
    ensures r.Some? ==> 2 < r.value.1 <= |s| && !r.value.0.TextRun?
  {
    if |s| > 1 && s[1] == '[' then
      match Csi(s[2..])
      case None => None
      case Some((a, n)) => Some((a, n + 2))
    else if |s| > 1 && s[1] == ']' then
      match Osc(s[2..], parse)
      case None => None
      case Some((a, n)) => Some((a, n + 2))
    else None
  }

  /** `flushText`: the pending text as an action, if there is any. */
  function Flush(buf: string): (r: seq<AnsiAction>)
    ensures buf == "" <==> r == []
  {
    if buf == "" then [] else [TextRun(buf)]
  }

  /** Whether `c` is one of the single-character controls CR, LF and BS. */
  predicate IsLineControl(c: char) {
    c == '\r' || c == '\n' || c == Backspace
  }

  /** The action of a single-character control. */
  function ControlAction(c: char): (r: AnsiAction)
    requires IsLineControl(c)
    ensures r.Cr? <==> c == '\r'
    ensures r.Lf? <==> c == '\n'
    ensures r.Bs? <==> c == Backspace
  {
    if c == '\r' then Cr else if c == '\n' then Lf else Bs
  }

  /** The actions for the rest `s` of the input when `buf` is pending text. */
  function Stream(s: string, buf: string, parse: string -> Option<JsonScan.Json>): seq<AnsiAction>
    decreases |s|
  {
    if |s| == 0 then Flush(buf)
    else if IsLineControl(s[0]) then Flush(buf) + [ControlAction(s[0])] + Stream(s[1..], "", parse)
    else if s[0] == Esc then
      match Escape(s, parse)
      case Some((a, n)) => Flush(buf) + [a] + Stream(s[n..], "", parse)
      case None => Flush(buf) + Stream(s[1..], "", parse)
    else Stream(s[1..], buf + [s[0]], parse)
  }

  lemma StreamEnd(buf: string, parse: string -> Option<JsonScan.Json>)
    ensures Stream("", buf, parse) == Flush(buf)
  {
  }

  lemma StreamControl(s: string, buf: string, parse: string -> Option<JsonScan.Json>)
    requires |s| > 0 && IsLineControl(s[0])
    ensures Stream(s, buf, parse) == Flush(buf) + [ControlAction(s[0])] + Stream(s[1..], "", parse)
  {
  }

  lemma StreamEscape(s: string, buf: string, parse: string -> Option<JsonScan.Json>)
    requires |s| > 0 && s[0] == Esc
    ensures Escape(s, parse).Some? ==>
      Stream(s, buf, parse) == Flush(buf) + [Escape(s, parse).value.0] + Stream(s[Escape(s, parse).value.1..], "", parse)
    ensures Escape(s, parse).None? ==> Stream(s, buf, parse) == Flush(buf) + Stream(s[1..], "", parse)
  {
  }

  lemma StreamText(s: string, buf: string, parse: string -> Option<JsonScan.Json>)
    requires |s| > 0 && !IsLineControl(s[0]) && s[0] != Esc
    ensures Stream(s, buf, parse) == Stream(s[1..], buf + [s[0]], parse)
  {
  }

  /** The escape branch of `parseAnsiStream` on the text from an ESC on:
      try a control sequence after `ESC [`, then a control string after
      `ESC ]`. */
  method ScanEscape(s: string, parse: string -> Option<JsonScan.Json>) returns (r: Option<(AnsiAction, nat)>)
    requires |s| > 0 && s[0] == Esc
    ensures r == Escape(s, parse)
  {
    if |s| > 1 && s[1] == '[' {
      var result := ScanCsi(s[2..]);
      if result.Some? {
        return Some((result.value.0, result.value.1 + 2));
      }
    }
    if |s| > 1 && s[1] == ']' {
      var result := ScanOsc(s[2..], parse);
      if result.Some? {
        return Some((result.value.0, result.value.1 + 2));
      }
    }
    return None;
  }

  /** The loop of `parseAnsiStream`. */
  method ParseAnsiStream(text: string, parse: string -> Option<JsonScan.Json>) returns (actions: seq<AnsiAction>)
    ensures actions == Stream(text, "", parse)
  {
    hide *;
    actions := [];
    assert text[0..] == text;
    var i := 0;
    var textBuffer := "";
    while i < |text|
      invariant 0 <= i <= |text|
      invariant actions + Stream(text[i..], textBuffer, parse) == Stream(text, "", parse)
    {
      var c := text[i];
      assert text[i..][0] == c && text[i..][1..] == text[i + 1..];
      if IsLineControl(c) {
        StreamControl(text[i..], textBuffer, parse);
        actions := actions + Flush(textBuffer) + [ControlAction(c)];
        textBuffer := "";
        i := i + 1;
      } else if c == Esc {
        StreamEscape(text[i..], textBuffer, parse);
        actions := actions + Flush(textBuffer);
        textBuffer := "";
        var result := ScanEscape(text[i..], parse);
        if result.Some? {
          assert text[i..][result.value.1..] == text[i + result.value.1..];
          actions := actions + [result.value.0];
          i := i + result.value.1;
        } else {
          i := i + 1;
        }
      } else {
        StreamText(text[i..], textBuffer, parse);
        textBuffer := textBuffer + [c];
        i := i + 1;
      }
    }
    assert text[i..] == "";
    StreamEnd(textBuffer, parse);
    actions := actions + Flush(textBuffer);
  }

  // ---- Properties ------------------------------------------------------

  /** The characters that end a text run. */
  predicate IsControl(c: char) {
    c == '\r' || c == '\n' || c == Backspace || c == Esc
  }

  /** The text an action stands for: its characters for a text run, the
      control character for CR, LF and BS, and nothing for the others. */
  function Render(actions: seq<AnsiAction>): string {
    if |actions| == 0 then ""
    else
      var head := match actions[0]
        case TextRun(t) => t
        case Cr => "\r"
        case Lf => "\n"
        case Bs => [Backspace]
        case _ => "";
      head + Render(actions[1..])
  }

  lemma {:induction false} RenderAppend(a: seq<AnsiAction>, b: seq<AnsiAction>)
    ensures Render(a + b) == Render(a) + Render(b)
    decreases |a|
  {
    if |a| == 0 {
      assert a + b == b;
    } else {
      assert (a + b)[1..] == a[1..] + b;
      RenderAppend(a[1..], b);
    }
  }

  lemma RenderFlush(buf: string)
    ensures Render(Flush(buf)) == buf
  {
    if buf != "" {
      assert Flush(buf)[1..] == [];
    }
  }

  lemma RenderOne(a: AnsiAction)
    ensures Render([a]) == match a
      case TextRun(t) => t
      case Cr => "\r"
      case Lf => "\n"
      case Bs => [Backspace]
      case _ => ""
  {
    assert [a][1..] == [];
  }

  /** Without ESC in the input, the actions are text runs and CR, LF and BS,
      and together they spell out the input (after the pending text). */
  lemma {:induction false} NoEscapeRoundTrip(s: string, buf: string, parse: string -> Option<JsonScan.Json>)
    requires Esc !in s
    ensures Render(Stream(s, buf, parse)) == buf + s
    ensures forall k :: 0 <= k < |Stream(s, buf, parse)| ==>
      Stream(s, buf, parse)[k].TextRun? || Stream(s, buf, parse)[k].Cr? ||
      Stream(s, buf, parse)[k].Lf? || Stream(s, buf, parse)[k].Bs?
    decreases |s|
  {
    hide Stream, Render;
    RenderFlush(buf);
    if |s| == 0 {
      StreamEnd(buf, parse);
    } else {
      assert s[0] != Esc && Esc !in s[1..];
      assert s == [s[0]] + s[1..];
      if IsLineControl(s[0]) {
        var control: AnsiAction := ControlAction(s[0]);
        StreamControl(s, buf, parse);
        NoEscapeRoundTrip(s[1..], "", parse);
        RenderAppend(Flush(buf) + [control], Stream(s[1..], "", parse));
        RenderAppend(Flush(buf), [control]);
        RenderOne(control);
      } else {
        StreamText(s, buf, parse);
        NoEscapeRoundTrip(s[1..], buf + [s[0]], parse);
        assert buf + [s[0]] + s[1..] == buf + s;
      }
    }
  }

  /** A text run's text: non-empty and free of CR, LF, BS and ESC. */
  predicate CleanText(t: string) {
    t != "" && forall j :: 0 <= j < |t| ==> !IsControl(t[j])
  }

  predicate CleanRuns(actions: seq<AnsiAction>) {
    forall k :: 0 <= k < |actions| && actions[k].TextRun? ==> CleanText(actions[k].text)
  }

  /** Every text run is non-empty and holds none of CR, LF, BS and ESC. */
  lemma {:induction false} TextRunsClean(s: string, buf: string, parse: string -> Option<JsonScan.Json>)
    requires forall k :: 0 <= k < |buf| ==> !IsControl(buf[k])
    ensures CleanRuns(Stream(s, buf, parse))
    decreases |s|
  {
    hide Stream;
    if |s| == 0 {
      StreamEnd(buf, parse);
    } else if IsLineControl(s[0]) {
      StreamControl(s, buf, parse);
      TextRunsClean(s[1..], "", parse);
    } else if s[0] == Esc {
      StreamEscape(s, buf, parse);
      if Escape(s, parse).Some? {
        TextRunsClean(s[Escape(s, parse).value.1..], "", parse);
      } else {
        TextRunsClean(s[1..], "", parse);
      }
    } else {
      StreamText(s, buf, parse);
      TextRunsClean(s[1..], buf + [s[0]], parse);
    }
  }

  /** A sequence made of parameter characters and then a non-parameter
      character `f` is decided by `f` alone. */
  lemma CsiShape(params: string, f: char, rest: string)
    requires forall k :: 0 <= k < |params| ==> IsParamChar(params[k])
    requires !IsParamChar(f)
    ensures Csi(params + [f] + rest) ==
      match CsiAction(f, Numbers(params))
      case None => None
      case Some(a) => Some((a, |params| + 1))
  {
    ParamLengthPrefix(params, [f] + rest);
    assert params + [f] + rest == params + ([f] + rest);
    assert (params + ([f] + rest))[..|params|] == params;
    assert (params + ([f] + rest))[|params|] == f;
  }

  /** A sequence whose final byte is not supported loses only its ESC: the
      rest is read as ordinary input. */
  lemma UnsupportedCsiLeaks(params: string, f: char, rest: string, buf: string, parse: string -> Option<JsonScan.Json>)
    requires forall k :: 0 <= k < |params| ==> IsParamChar(params[k])
    requires !IsParamChar(f) && !IsFinal(f)
    ensures Stream([Esc, '['] + params + [f] + rest, buf, parse) ==
            Flush(buf) + Stream(['['] + params + [f] + rest, "", parse)
  {
    var s := [Esc, '['] + params + [f] + rest;
    assert s[2..] == params + [f] + rest;
    assert s[1..] == ['['] + params + [f] + rest;
    CsiShape(params, f, rest);
    StreamEscape(s, buf, parse);
  }

  /** A sequence cut off before its final byte loses only its ESC. */
  lemma TruncatedCsiLeaks(params: string, buf: string, parse: string -> Option<JsonScan.Json>)
    requires forall k :: 0 <= k < |params| ==> IsParamChar(params[k])
    ensures Stream([Esc, '['] + params, buf, parse) == Flush(buf) + Stream(['['] + params, "", parse)
  {
    var s := [Esc, '['] + params;
    ParamLengthPrefix(params, "");
    assert s[2..] == params + "";
    assert s[1..] == ['['] + params;
    StreamEscape(s, buf, parse);
  }

  /** A control string other than `custom;` loses only its ESC. */
  lemma OtherOscLeaks(body: string, buf: string, parse: string -> Option<JsonScan.Json>)
    requires !(CustomTag <= body)
    ensures Stream([Esc, ']'] + body, buf, parse) == Flush(buf) + Stream([']'] + body, "", parse)
  {
    var s := [Esc, ']'] + body;
    assert s[2..] == body;
    assert s[1..] == [']'] + body;
    StreamEscape(s, buf, parse);
  }

  /** The parameter prefix of `params + rest` is `params` when `rest` does
      not start with a parameter character. */
  lemma {:induction false} ParamLengthPrefix(params: string, rest: string)
    requires forall k :: 0 <= k < |params| ==> IsParamChar(params[k])
    requires rest == "" || !IsParamChar(rest[0])
    ensures ParamLength(params + rest) == |params|
    decreases |params|
  {
    if |params| > 0 {
      assert (params + rest)[1..] == params[1..] + rest;
      ParamLengthPrefix(params[1..], rest);
    } else {
      assert params + rest == rest;
    }
  }

  /** CUU, CUD, CUF and CUB move by at least one; a missing or zero
      parameter moves by one. */
  lemma CursorMoveDefault(params: string, f: char, rest: string)
    requires forall k :: 0 <= k < |params| ==> IsParamChar(params[k])
    requires f in "ABCD"
    ensures Csi(params + [f] + rest).Some?
    ensures var a := Csi(params + [f] + rest).value.0;
      var n := match a case Cuu(n) => n case Cud(n) => n case Cuf(n) => n case Cub(n) => n case _ => 0;
      n >= 1 && (Numbers(params) == [] || Numbers(params)[0] == 0 ==> n == 1)
  {
    hide Csi, Numbers, ParamLength;
    CsiShape(params, f, rest);
  }

  /** CUP and HVP turn 1-based parameters into 0-based positions; a missing
      or zero parameter is position 0. */
  lemma CursorPositionZeroBased(params: string, f: char, rest: string)
    requires forall k :: 0 <= k < |params| ==> IsParamChar(params[k])
    requires f == 'H' || f == 'f'
    ensures Csi(params + [f] + rest) ==
      Some((Cup(Param(Numbers(params), 0, 1) - 1, Param(Numbers(params), 1, 1) - 1), |params| + 1))
  {
    hide Csi, Numbers, ParamLength;
    CsiShape(params, f, rest);
  }

  /** `m` without parameters is a reset; ED and EL default to mode 0. */
  lemma EmptyParameters()
    ensures Csi("m") == Some((Sgr([0]), 1))
    ensures Csi("J") == Some((Ed(0), 1))
    ensures Csi("K") == Some((El(0), 1))
    ensures Csi("H") == Some((Cup(0, 0), 1))
  {
    hide Csi, Numbers, ParamLength;
    CsiShape("", 'm', "");
    CsiShape("", 'J', "");
    CsiShape("", 'K', "");
    CsiShape("", 'H', "");
    assert "" + ['m'] + "" == "m" && "" + ['J'] + "" == "J" && "" + ['K'] + "" == "K" && "" + ['H'] + "" == "H";
  }
}
