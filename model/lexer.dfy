/** The shell's tokenizer: blanks are skipped, each newline is a token,
    operators are matched longest first, quoted strings and plain words
    become text tokens, and any other character is an error. */
module Lexer {
  import opened Wrappers
  import opened Text

  datatype Token =
    | Word(text: string)
    | SingleQuoted(text: string)
    | DoubleQuoted(text: string)
    | Pipe | And | Or
    | RedirectOut | RedirectAppend | RedirectIn
    | SubstStart | ParenClose
    | Newline

  /** `is_meta`: the characters that end a plain word. `$` is not one of
      them; `$(` is handled on its own. */
  predicate IsMeta(c: char) {
    c == '|' || c == '&' || c == '<' || c == '>' || c == '(' || c == ')' || c == ';' ||
    c == '\n' || c == ' ' || c == '\t' || c == '"' || c == '\''
  }

  /** The white space `skip_whitespace` drops: spaces and tabs, not newlines. */
  predicate IsBlank(c: char) {
    c == ' ' || c == '\t'
  }

  /** A rule that matched left less input than it was given. */
  predicate Consumes(s: string, rest: string) {
    |rest| < |s|
  }

  /** `$(` at index `k`. */
  predicate SubstAt(s: string, k: int) {
    0 <= k && k + 1 < |s| && s[k] == '$' && s[k + 1] == '('
  }

  /** `$(` at the front. */
  predicate StartsSubst(s: string) {
    SubstAt(s, 0)
  }

  /** `skip_whitespace` */
  function SkipBlanks(s: string): (r: string)
    ensures |r| <= |s|
    ensures |r| == 0 || !IsBlank(r[0])
    decreases |s|
  {
    if |s| > 0 && IsBlank(s[0]) then SkipBlanks(s[1..]) else s
  }

  /** `operator`: `&&`, `||`, `>>` and `$(` are tried before `|`, `>`, `<`
      and `)`; nothing else is an operator, not even a lone `&`. */
  function Operator(s: string): (r: Option<(Token, string)>)
    ensures r.Some? ==> Consumes(s, r.value.1)
    ensures r.None? <==> (|s| == 0 || (s[0] != '|' && s[0] != '>' && s[0] != '<' && s[0] != ')' && !(|s| >= 2 && s[0] == '&' && s[1] == '&') && !StartsSubst(s)))
  {
    if |s| >= 2 && s[0] == '&' && s[1] == '&' then Some((And, s[2..]))
    else if |s| >= 2 && s[0] == '|' && s[1] == '|' then Some((Or, s[2..]))
    else if |s| >= 2 && s[0] == '>' && s[1] == '>' then Some((RedirectAppend, s[2..]))
    else if StartsSubst(s) then Some((SubstStart, s[2..]))
    else if |s| >= 1 && s[0] == '|' then Some((Pipe, s[1..]))
    else if |s| >= 1 && s[0] == '>' then Some((RedirectOut, s[1..]))
    else if |s| >= 1 && s[0] == '<' then Some((RedirectIn, s[1..]))
    else if |s| >= 1 && s[0] == ')' then Some((ParenClose, s[1..]))
    else None
  }

  /** `single_quoted`: the raw characters up to the next `'`, possibly
      none; no closing quote means no match. */
  function SingleQuotedToken(s: string): (r: Option<(Token, string)>)
    ensures r.Some? ==> Consumes(s, r.value.1) && r.value.0.SingleQuoted?
    ensures r.Some? ==> '\'' !in r.value.0.text && s == "'" + r.value.0.text + "'" + r.value.1
    ensures |s| > 0 && s[0] == '\'' && '\'' !in s[1..] ==> r.None?
  {
    if |s| == 0 || s[0] != '\'' then None
    else match FindChar(s[1..], '\'')
      case None => None
      case Some(k) =>
        assert s == "'" + s[1..][..k] + "'" + s[1..][k + 1..];
        Some((SingleQuoted(s[1..][..k]), s[1..][k + 1..]))
  }

  /** What a backslash and the character after it decode to inside double
      quotes: `\\ \" \$ \n \t` are escapes, anything else keeps its backslash. */
  function Unescape(c: char): string {
    match c
    case '\\' => "\\"
    case '"' => "\""
    case '$' => "$"
    case 'n' => "\n"
    case 't' => "\t"
    case _ => ['\\', c]
  }

  function Prefixed(p: string, o: Option<(string, string)>): (r: Option<(string, string)>)
    ensures r.None? <==> o.None?
    ensures r.Some? ==> r.value == (p + o.value.0, o.value.1)
  {
    match o
    case None => None
    case Some((d, rest)) => Some((p + d, rest))
  }

  lemma PrefixedTwice(a: string, b: string, o: Option<(string, string)>)
    ensures Prefixed(a, Prefixed(b, o)) == Prefixed(a + b, o)
    ensures Prefixed("", o) == o
  {
    if o.Some? {
      assert a + (b + o.value.0) == (a + b) + o.value.0;
      assert "" + o.value.0 == o.value.0;
    }
  }

  /** The body of a double-quoted string, from just after the opening quote:
      the decoded text and what follows the closing quote, or `None` when
      the quote is never closed. */
  function DecodeDouble(s: string): (r: Option<(string, string)>)
    ensures r.Some? ==> Consumes(s, r.value.1)
    decreases |s|
  {
    if |s| == 0 then None
    else if s[0] == '"' then Some(("", s[1..]))
    else if s[0] == '\\' && |s| > 1 then Prefixed(Unescape(s[1]), DecodeDouble(s[2..]))
    else Prefixed([s[0]], DecodeDouble(s[1..]))
  }

  /** `double_quoted` as a function. */
  function DoubleQuotedToken(s: string): (r: Option<(Token, string)>)
    ensures r.Some? ==> Consumes(s, r.value.1) && r.value.0.DoubleQuoted?
  {
    if |s| == 0 || s[0] != '"' then None
    else match DecodeDouble(s[1..])
      case None => None
      case Some((text, rest)) => Some((DoubleQuoted(text), rest))
  }

  /** `double_quoted`: the loop over the body, accumulating the decoded text. */
  method DoubleQuotedMatch(input: string) returns (r: Option<(Token, string)>)
    ensures r == DoubleQuotedToken(input)
  {
    if |input| == 0 || input[0] != '"' {
      return None;
    }
    var result := "";
    var remaining := input[1..];
    var closed := false;
    PrefixedTwice("", "", DecodeDouble(remaining));
    while |remaining| > 0
      invariant !closed
      invariant DecodeDouble(input[1..]) == Prefixed(result, DecodeDouble(remaining))
      decreases |remaining|
    {
      if remaining[0] == '"' {
        assert result + "" == result;
        assert DecodeDouble(input[1..]) == Some((result, remaining[1..]));
        remaining := remaining[1..];
        closed := true;
        break;
      } else if remaining[0] == '\\' && |remaining| > 1 {
        var next := remaining[1];
        assert DecodeDouble(remaining) == Prefixed(Unescape(next), DecodeDouble(remaining[2..]));
        PrefixedTwice(result, Unescape(next), DecodeDouble(remaining[2..]));
        result := result + Unescape(next);
        remaining := remaining[2..];
      } else {
        var c := remaining[0];
        assert DecodeDouble(remaining) == Prefixed([c], DecodeDouble(remaining[1..]));
        PrefixedTwice(result, [c], DecodeDouble(remaining[1..]));
        result := result + [c];
        remaining := remaining[1..];
      }
    }
    if !closed {
      return None;
    }
    return Some((DoubleQuoted(result), remaining));
  }

  /** The length of the plain word at the front of `s`: up to a meta
      character or `$(`. */
  function WordLength(s: string): (n: nat)
    ensures n <= |s|
    decreases |s|
  {
    if |s| == 0 || IsMeta(s[0]) || StartsSubst(s) then 0 else 1 + WordLength(s[1..])
  }

  lemma {:induction false} WordLengthStops(s: string)
    ensures forall k :: 0 <= k < WordLength(s) ==> !IsMeta(s[k]) && !SubstAt(s, k)
    ensures WordLength(s) == |s| || IsMeta(s[WordLength(s)]) || SubstAt(s, WordLength(s))
    decreases |s|
  {
    if !(|s| == 0 || IsMeta(s[0]) || StartsSubst(s)) {
      WordLengthStops(s[1..]);
      forall k | 1 <= k <= WordLength(s)
        ensures SubstAt(s, k) <==> SubstAt(s[1..], k - 1)
      {
      }
    }
  }

  /** `word_with_vars` as a function: `$VAR` stays inside the word's text. */
  function WordToken(s: string): (r: Option<(Token, string)>)
    ensures r.Some? ==> Consumes(s, r.value.1) && r.value.0.Word? && s == r.value.0.text + r.value.1
    ensures r.Some? ==> forall c :: c in r.value.0.text ==> !IsMeta(c)
    ensures r.Some? ==> r.value.1 == [] || IsMeta(r.value.1[0]) || StartsSubst(r.value.1)
    ensures r.None? <==> (|s| == 0 || IsMeta(s[0]) || StartsSubst(s))
  {
    var n := WordLength(s);
    if |s| == 0 || IsMeta(s[0]) || n == 0 then None
    else
      WordLengthStops(s);
      assert s == s[..n] + s[n..];
      assert SubstAt(s, n) ==> StartsSubst(s[n..]);
      Some((Word(s[..n]), s[n..]))
  }

  /** `word_with_vars`: the loop that collects the word's characters. */
  method WordWithVars(input: string) returns (r: Option<(Token, string)>)
    ensures r == WordToken(input)
  {
    if |input| == 0 || IsMeta(input[0]) {
      return None;
    }
    var result := "";
    var remaining := input;
    while |remaining| > 0
      invariant result + remaining == input
      invariant WordLength(input) == |result| + WordLength(remaining)
      decreases |remaining|
    {
      if StartsSubst(remaining) {
        break;
      }
      var c := remaining[0];
      if IsMeta(c) {
        break;
      }
      assert input[|result|..] == remaining;
      result := result + [c];
      remaining := remaining[1..];
    }
    assert input[..|result|] == result;
    if |result| == 0 {
      return None;
    }
    return Some((Word(result), remaining));
  }

  /** `token`: blanks, then the first rule that matches. */
  function NextToken(s: string): (r: Option<(Token, string)>)
    ensures r.Some? ==> Consumes(s, r.value.1)
  {
    var t := SkipBlanks(s);
    if |t| == 0 then None
    else if Operator(t).Some? then Operator(t)
    else if SingleQuotedToken(t).Some? then SingleQuotedToken(t)
    else if DoubleQuotedToken(t).Some? then DoubleQuotedToken(t)
    else WordToken(t)
  }

  /** `token` */
  method TokenAt(input: string) returns (r: Option<(Token, string)>)
    ensures r == NextToken(input)
  {
    var t := SkipBlanks(input);
    if |t| == 0 {
      return None;
    }
    r := Operator(t);
    if r.Some? {
      return;
    }
    r := SingleQuotedToken(t);
    if r.Some? {
      return;
    }
    r := DoubleQuotedMatch(t);
    if r.Some? {
      return;
    }
    r := WordWithVars(t);
  }

  function PrependAll(ts: seq<Token>, r: Result<seq<Token>, string>): (p: Result<seq<Token>, string>)
    ensures p.Ok? <==> r.Ok?
    ensures p.Ok? ==> p.value == ts + r.value
    ensures p.Err? ==> p.error == r.error
  {
    match r
    case Ok(rest) => Ok(ts + rest)
    case Err(e) => Err(e)
  }

  lemma PrependAllTwice(a: seq<Token>, b: seq<Token>, r: Result<seq<Token>, string>)
    ensures PrependAll(a, PrependAll(b, r)) == PrependAll(a + b, r)
  {
    if r.Ok? {
      assert a + (b + r.value) == (a + b) + r.value;
    }
  }

  /** `tokenize` as a function: the tokens of the whole input, or the error
      naming the input left when no rule matched. */
  function Lex(s: string): Result<seq<Token>, string>
    decreases |s|, 1
  {
    LexAt(SkipBlanks(s))
  }

  /** `tokenize` from a point where no blank comes first. */
  function LexAt(t: string): Result<seq<Token>, string>
    decreases |t|, 0
  {
    if |t| == 0 then Ok([])
    else if t[0] == '\n' then PrependAll([Newline], Lex(t[1..]))
    else match NextToken(t)
      case None => Err("Tokenize error at '" + t + "'")
      case Some((tok, rest)) => PrependAll([tok], Lex(rest))
  }

  /** `tokenize` */
  method Tokenize(input: string) returns (r: Result<seq<Token>, string>)
    ensures r == Lex(input)
  {
    var tokens: seq<Token> := [];
    var remaining := input;
    assert PrependAll([], Lex(input)) == Lex(input) by {
      if Lex(input).Ok? {
        assert [] + Lex(input).value == Lex(input).value;
      }
    }
    while true
      invariant Lex(input) == PrependAll(tokens, Lex(remaining))
      decreases |remaining|
    {
      remaining := SkipBlanks(remaining);
      assert Lex(input) == PrependAll(tokens, LexAt(remaining));
      if |remaining| == 0 {
        assert tokens + [] == tokens;
        break;
      }
      if remaining[0] == '\n' {
        assert LexAt(remaining) == PrependAll([Newline], Lex(remaining[1..]));
        PrependAllTwice(tokens, [Newline], Lex(remaining[1..]));
        tokens := tokens + [Newline];
        remaining := remaining[1..];
        continue;
      }
      var next := TokenAt(remaining);
      match next {
        case None =>
          assert LexAt(remaining) == Err("Tokenize error at '" + remaining + "'");
          return Err("Tokenize error at '" + remaining + "'");
        case Some((tok, rest)) =>
          assert LexAt(remaining) == PrependAll([tok], Lex(rest));
          PrependAllTwice(tokens, [tok], Lex(rest));
          tokens := tokens + [tok];
          remaining := rest;
      }
    }
    return Ok(tokens);
  }

  // ---- Properties -------------------------------------------------------------

  /** The two-character operators win over their one-character prefixes. */
  lemma OperatorLongestFirst(rest: string)
    ensures Operator("&&" + rest) == Some((And, rest))
    ensures Operator("||" + rest) == Some((Or, rest))
    ensures Operator(">>" + rest) == Some((RedirectAppend, rest))
    ensures Operator("$(" + rest) == Some((SubstStart, rest))
  {
    assert ("&&" + rest)[2..] == rest;
    assert ("||" + rest)[2..] == rest;
    assert (">>" + rest)[2..] == rest;
    assert ("$(" + rest)[2..] == rest;
  }

  /** `;`, `(` and a lone `&` start no token, so tokenizing fails there. */
  lemma LexRejects(s: string)
    requires |s| > 0 && (s[0] == ';' || s[0] == '(' || (s[0] == '&' && (|s| == 1 || s[1] != '&')))
    ensures Lex(s).Err?
  {
    assert SkipBlanks(s) == s;
    assert Operator(s).None?;
    assert WordToken(s).None?;
  }

  /** Blanks before a token are dropped and a newline is a token of its own. */
  lemma LexBlankAndNewline(s: string)
    ensures Lex(" " + s) == Lex(s) && Lex("\t" + s) == Lex(s)
    ensures Lex("\n" + s) == PrependAll([Newline], Lex(s))
  {
    assert (" " + s)[1..] == s;
    assert ("\t" + s)[1..] == s;
    assert ("\n" + s)[1..] == s;
    assert SkipBlanks("\n" + s) == "\n" + s;
  }

  /** The escaping that `double_quoted` undoes: a backslash before each
      backslash and each double quote. */
  function Escape(t: string): (r: string)
    ensures '"' !in t && '\\' !in t ==> r == t
    decreases |t|
  {
    if |t| == 0 then ""
    else if t[0] == '\\' || t[0] == '"' then ['\\', t[0]] + Escape(t[1..])
    else [t[0]] + Escape(t[1..])
  }

  /** Decoding an escaped text followed by a closing quote gives the text
      back, and the input after the quote. */
  lemma {:induction false} DecodeEscaped(t: string, rest: string)
    ensures DecodeDouble(Escape(t) + "\"" + rest) == Some((t, rest))
    decreases |t|
  {
    if |t| == 0 {
      assert Escape(t) + "\"" + rest == "\"" + rest;
      assert ("\"" + rest)[1..] == rest;
    } else {
      DecodeEscaped(t[1..], rest);
      if t[0] == '\\' || t[0] == '"' {
        DecodeEscapedChar(t, rest);
      } else {
        DecodePlainChar(t, rest);
      }
    }
  }

  lemma DecodeEscapedChar(t: string, rest: string)
    requires |t| > 0 && (t[0] == '\\' || t[0] == '"')
    requires DecodeDouble(Escape(t[1..]) + "\"" + rest) == Some((t[1..], rest))
    ensures DecodeDouble(Escape(t) + "\"" + rest) == Some((t, rest))
  {
    var tail := Escape(t[1..]) + "\"" + rest;
    var s := Escape(t) + "\"" + rest;
    assert s == ['\\', t[0]] + tail;
    assert s[2..] == tail;
    assert DecodeDouble(s) == Prefixed(Unescape(t[0]), DecodeDouble(tail));
    assert [t[0]] + t[1..] == t;
  }

  lemma DecodePlainChar(t: string, rest: string)
    requires |t| > 0 && t[0] != '\\' && t[0] != '"'
    requires DecodeDouble(Escape(t[1..]) + "\"" + rest) == Some((t[1..], rest))
    ensures DecodeDouble(Escape(t) + "\"" + rest) == Some((t, rest))
  {
    var tail := Escape(t[1..]) + "\"" + rest;
    var s := Escape(t) + "\"" + rest;
    assert s == [t[0]] + tail;
    assert s[1..] == tail;
    assert DecodeDouble(s) == Prefixed([t[0]], DecodeDouble(tail));
    assert [t[0]] + t[1..] == t;
  }

  /** Without a double quote in the rest of the input the string is never
      closed. */
  lemma {:induction false} UnclosedDouble(s: string)
    requires '"' !in s
    ensures DecodeDouble(s).None?
    decreases |s|
  {
    if |s| > 0 {
      if s[0] == '\\' && |s| > 1 {
        assert forall c :: c in s[2..] ==> c in s;
        UnclosedDouble(s[2..]);
      } else {
        assert forall c :: c in s[1..] ==> c in s;
        UnclosedDouble(s[1..]);
      }
    }
  }

  /** A word the tokenizer reads back as one `Word`: no meta character and
      no `$(` inside. */
  predicate PlainWord(w: string) {
    (forall k :: 0 <= k < |w| ==> !IsMeta(w[k])) && (forall k {:trigger SubstAt(w, k)} :: 0 <= k < |w| ==> !SubstAt(w, k))
  }

  lemma {:induction false} WordLengthOf(w: string, rest: string)
    requires PlainWord(w)
    requires rest == [] || (IsMeta(rest[0]) && rest[0] != '(')
    ensures WordLength(w + rest) == |w|
    decreases |w|
  {
    var s := w + rest;
    if |w| > 0 {
      assert s[1..] == w[1..] + rest;
      assert PlainWord(w[1..]) by {
        forall k | 0 <= k < |w[1..]|
          ensures !IsMeta(w[1..][k]) && !SubstAt(w[1..], k)
        {
          assert !SubstAt(w, k + 1);
        }
      }
      assert !StartsSubst(s) by {
        if |w| >= 2 {
          assert !SubstAt(w, 0);
        }
      }
      WordLengthOf(w[1..], rest);
    } else {
      assert s == rest;
    }
  }

  /** A plain word followed by the end of the input or a meta character
      other than `(` is read as that word. */
  lemma NextTokenWord(w: string, rest: string)
    requires |w| > 0 && PlainWord(w)
    requires rest == [] || (IsMeta(rest[0]) && rest[0] != '(')
    ensures NextToken(w + rest) == Some((Word(w), rest))
  {
    var s := w + rest;
    assert s[0] == w[0];
    assert SkipBlanks(s) == s;
    assert !StartsSubst(s) by {
      if |w| >= 2 {
        assert !SubstAt(w, 0);
      }
    }
    WordLengthOf(w, rest);
    assert s[..|w|] == w && s[|w|..] == rest;
  }

  lemma LexWord(w: string, rest: string)
    requires |w| > 0 && PlainWord(w)
    requires rest == [] || (IsMeta(rest[0]) && rest[0] != '(' && rest[0] != '\n')
    ensures Lex(w + rest) == PrependAll([Word(w)], Lex(rest))
  {
    NextTokenWord(w, rest);
    assert SkipBlanks(w + rest) == w + rest;
  }

  /** `tokenize` takes one token where no blank and no newline comes first. */
  lemma LexStep(s: string, tok: Token, rest: string)
    requires SkipBlanks(s) == s && |s| > 0 && s[0] != '\n' && NextToken(s) == Some((tok, rest))
    ensures Lex(s) == PrependAll([tok], Lex(rest))
  {
  }

  /** A single-quoted token is read up to its closing quote. */
  lemma NextTokenSingleQuoted(w: string, rest: string)
    requires '\'' !in w
    ensures SkipBlanks("'" + w + "'" + rest) == "'" + w + "'" + rest
    ensures NextToken("'" + w + "'" + rest) == Some((SingleQuoted(w), rest))
  {
    var s := "'" + w + "'" + rest;
    var tail := s[1..];
    assert tail == w + "'" + rest;
    assert tail[|w|] == '\'';
    assert tail[..|w|] == w && tail[|w| + 1..] == rest;
    assert SkipBlanks(s) == s;
    assert SingleQuotedToken(s) == Some((SingleQuoted(w), rest));
  }

  lemma LexBlankThen(s: string)
    ensures Lex(" " + s) == Lex(s)
  {
    assert (" " + s)[1..] == s;
  }

  lemma LexWordThen(w: string, s: string, ts: seq<Token>)
    requires |w| > 0 && PlainWord(w) && Lex(s) == Ok(ts)
    ensures Lex(w + (" " + s)) == Ok([Word(w)] + ts)
  {
    LexWord(w, " " + s);
    LexBlankThen(s);
  }

  lemma LexAndThen(s: string, ts: seq<Token>)
    requires Lex(s) == Ok(ts)
    ensures Lex("&&" + (" " + s)) == Ok([And] + ts)
  {
    var t := "&&" + (" " + s);
    assert t[0] == '&' && t[1] == '&' && t[2..] == " " + s;
    assert SkipBlanks(t) == t;
    assert NextToken(t) == Some((And, " " + s));
    assert LexAt(t) == PrependAll([And], Lex(" " + s));
    LexBlankThen(s);
  }

  lemma LexOrThen(s: string, ts: seq<Token>)
    requires Lex(s) == Ok(ts)
    ensures Lex("||" + (" " + s)) == Ok([Or] + ts)
  {
    OperatorLongestFirst(" " + s);
    assert SkipBlanks("||" + (" " + s)) == "||" + (" " + s);
    LexBlankThen(s);
  }

  lemma LexSingleWord(w: string)
    requires |w| > 0 && PlainWord(w)
    ensures Lex(w) == Ok([Word(w)])
  {
    LexWord(w, "");
    assert w + "" == w;
    assert Lex("") == Ok([]);
    assert [Word(w)] + [] == [Word(w)];
  }

  /** The lexer's `cmd1 && cmd2 || cmd3` example, for any plain words. */
  lemma AndOrList(a: string, b: string, c: string)
    requires |a| > 0 && PlainWord(a) && |b| > 0 && PlainWord(b) && |c| > 0 && PlainWord(c)
    ensures Lex(a + " && " + b + " || " + c) == Ok([Word(a), And, Word(b), Or, Word(c)])
  {
    hide Lex;
    var s3 := "||" + (" " + c);
    var s2 := b + (" " + s3);
    var s1 := "&&" + (" " + s2);
    assert Lex(s3) == Ok([Or, Word(c)]) by {
      LexSingleWord(c);
      LexOrThen(c, [Word(c)]);
      assert [Or] + [Word(c)] == [Or, Word(c)];
    }
    assert Lex(s2) == Ok([Word(b), Or, Word(c)]) by {
      LexWordThen(b, s3, [Or, Word(c)]);
      assert [Word(b)] + [Or, Word(c)] == [Word(b), Or, Word(c)];
    }
    assert Lex(s1) == Ok([And, Word(b), Or, Word(c)]) by {
      LexAndThen(s2, [Word(b), Or, Word(c)]);
      assert [And] + [Word(b), Or, Word(c)] == [And, Word(b), Or, Word(c)];
    }
    assert Lex(a + (" " + s1)) == Ok([Word(a), And, Word(b), Or, Word(c)]) by {
      LexWordThen(a, s1, [And, Word(b), Or, Word(c)]);
      assert [Word(a)] + [And, Word(b), Or, Word(c)] == [Word(a), And, Word(b), Or, Word(c)];
    }
    AndOrText(a, b, c);
  }

  lemma AndOrText(a: string, b: string, c: string)
    ensures a + " && " + b + " || " + c == a + (" " + ("&&" + (" " + (b + (" " + ("||" + (" " + c)))))))
  {
    assert " || " + c == " " + ("||" + (" " + c));
    assert " && " + b == " " + ("&&" + (" " + b));
    assert " && " + (b + " || " + c) == " " + ("&&" + (" " + (b + (" " + ("||" + (" " + c))))));
  }

  // ---- Escapes before a multi-byte character -------------------------------------

  /** The number of bytes UTF-8 uses for `c`. */
  function Utf8Length(c: char): (n: nat)
    ensures 1 <= n <= 4
    ensures n == 1 <==> (c as int) < 0x80
  {
    if (c as int) < 0x80 then 1
    else if (c as int) < 0x800 then 2
    else if (c as int) < 0x10000 then 3
    else 4
  }

  datatype DecodeOutcome = Closed(text: string, rest: string) | Unclosed | Panics

  /** `double_quoted` as written: after a backslash it slices the rest of
      the input two bytes on, which is inside the next character when that
      character needs more than one byte, and Rust panics there. */
  function DecodeDoubleAsWritten(s: string): DecodeOutcome
    decreases |s|
  {
    if |s| == 0 then Unclosed
    else if s[0] == '"' then Closed("", s[1..])
    else if s[0] == '\\' && |s| > 1 then
      if Utf8Length(s[1]) != 1 then Panics
      else match DecodeDoubleAsWritten(s[2..])
        case Closed(d, rest) => Closed(Unescape(s[1]) + d, rest)
        case other => other
    else match DecodeDoubleAsWritten(s[1..])
      case Closed(d, rest) => Closed([s[0]] + d, rest)
      case other => other
  }

  /** `"\é"` panics as written, where the character-level decoding closes
      the string and keeps the backslash. */
  lemma EscapedMultiByteCharPanics()
    ensures DecodeDoubleAsWritten("\\é\"") == Panics
    ensures DecodeDouble("\\é\"") == Some(("\\é", ""))
  {
    var s := "\\é\"";
    assert s[1] == 'é' && s[2..] == "\"";
    assert DecodeDouble(s[2..]) == Some(("", ""));
    assert Unescape('é') == ['\\', 'é'] == "\\é";
    assert "\\é" + "" == "\\é";
  }

  /** Where no escaped character is multi-byte, the code as written agrees
      with the character-level decoding. */
  lemma {:induction false} AsWrittenAgreesOnAscii(s: string)
    requires forall k :: 0 <= k < |s| - 1 ==> s[k] == '\\' ==> Utf8Length(s[k + 1]) == 1
    ensures DecodeDouble(s).None? ==> DecodeDoubleAsWritten(s) == Unclosed
    ensures DecodeDouble(s).Some? ==> DecodeDoubleAsWritten(s) == Closed(DecodeDouble(s).value.0, DecodeDouble(s).value.1)
    decreases |s|
  {
    if |s| > 0 && s[0] != '"' {
      if s[0] == '\\' && |s| > 1 {
        AsWrittenAgreesOnAscii(s[2..]);
      } else {
        AsWrittenAgreesOnAscii(s[1..]);
      }
    }
  }
}
