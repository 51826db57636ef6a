/** `extractJson`, the balanced-object scan written identically in the
    terminal's stream parser and in the older span parser. Starting at a
    `{`, it counts brace depth outside JSON strings (a backslash inside a
    string escapes the next character) and stops at the `}` that brings the
    depth back to zero. */
module JsonScan {
  import opened Wrappers

  /** A value `JSON.parse` produces. Numbers are kept as reals; how the
      parser rounds them is not part of this model. */
  datatype Json =
    | JNull
    | JBool(b: bool)
    | JNumber(n: real)
    | JString(s: string)
    | JArray(items: seq<Json>)
    | JObject(members: seq<(string, Json)>)

  /** The scan's three loop variables. */
  datatype ScanState = ScanState(depth: int, inString: bool, escape: bool)

  const Initial := ScanState(0, false, false)

  /** One pass of the loop body over `c`, when it does not return. */
  function Step(st: ScanState, c: char): ScanState {
    if st.escape then st.(escape := false)
    else if c == '\\' && st.inString then st.(escape := true)
    else if c == '"' then st.(inString := !st.inString)
    else if st.inString then st
    else if c == '{' then st.(depth := st.depth + 1)
    else if c == '}' then st.(depth := st.depth - 1)
    else st
  }

  /** Whether reading `c` in state `st` is the `}` the scan returns at. */
  predicate Closes(st: ScanState, c: char) {
    !st.escape && !st.inString && c == '}' && st.depth == 1
  }

  /** The state after reading all of `s`. */
  function Run(st: ScanState, s: string): ScanState
    decreases |s|
  {
    if |s| == 0 then st else Step(Run(st, s[..|s| - 1]), s[|s| - 1])
  }

  /** The loop variables when the scan of `text` begun at `start` reaches index `k`. */
  function StateAt(text: string, start: nat, k: nat): ScanState
    requires start <= k <= |text|
  {
    Run(Initial, text[start..k])
  }

  /** Reading one more character is one more step. */
  lemma StateAtNext(text: string, start: nat, k: nat)
    requires start <= k < |text|
    ensures StateAt(text, start, k + 1) == Step(StateAt(text, start, k), text[k])
  {
    assert text[start..k + 1][..k - start] == text[start..k];
  }

  /** The end index (one past the `}`) of the first closing position at or after `k`. */
  function FirstClose(text: string, start: nat, k: nat): (r: Option<nat>)
    requires start <= k <= |text|
    ensures r.Some? ==> k < r.value <= |text| && Closes(StateAt(text, start, r.value - 1), text[r.value - 1])
    ensures r.Some? ==> forall j :: k <= j < r.value - 1 ==> !Closes(StateAt(text, start, j), text[j])
    ensures r.None? <==> forall j :: k <= j < |text| ==> !Closes(StateAt(text, start, j), text[j])
    decreases |text| - k
  {
    if k == |text| then None
    else if Closes(StateAt(text, start, k), text[k]) then Some(k + 1)
    else FirstClose(text, start, k + 1)
  }

  /** What `extractJson` returns: the object's text and the index just past it. */
  datatype Extracted = Extracted(json: string, endIndex: nat)

  /** `extractJson(text, start)` as a value. */
  function ExtractJson(text: string, start: nat): (r: Option<Extracted>)
    ensures r.Some? ==> start < r.value.endIndex <= |text| && r.value.json == text[start..r.value.endIndex]
  {
    if start >= |text| || text[start] != '{' then None
    else match FirstClose(text, start, start)
      case None => None
      case Some(e) => Some(Extracted(text[start..e], e))
  }

  /** The scan loop. */
  method ScanJson(text: string, start: nat) returns (r: Option<Extracted>)
    ensures r == ExtractJson(text, start)
  {
    hide FirstClose;
    if start >= |text| || text[start] != '{' {
      return None;
    }
    var depth, inString, escape := 0, false, false;
    var i := start;
    while i < |text|
      invariant start <= i <= |text|
      invariant ScanState(depth, inString, escape) == StateAt(text, start, i)
      invariant FirstClose(text, start, start) == FirstClose(text, start, i)
    {
      StateAtNext(text, start, i);
      FirstCloseStep(text, start, i);
      var c := text[i];
      if escape {
        escape := false;
      } else if c == '\\' && inString {
        escape := true;
      } else if c == '"' {
        inString := !inString;
      } else if !inString {
        if c == '{' {
          depth := depth + 1;
        } else if c == '}' {
          depth := depth - 1;
          if depth == 0 {
            return Some(Extracted(text[start..i + 1], i + 1));
          }
        }
      }
      i := i + 1;
    }
    FirstCloseStep(text, start, i);
    return None;
  }

  /** Before the closing position the depth stays at one or more. */
  lemma {:induction false} DepthPositive(text: string, start: nat, k: nat)
    requires start < k <= |text| && text[start] == '{'
    requires forall j :: start <= j < k ==> !Closes(StateAt(text, start, j), text[j])
    ensures StateAt(text, start, k).depth >= 1
    decreases k
  {
    StateAtNext(text, start, k - 1);
    if k - 1 == start {
      assert StateAt(text, start, start) == Initial;
    } else {
      DepthPositive(text, start, k - 1);
      assert !Closes(StateAt(text, start, k - 1), text[k - 1]);
    }
  }

  /** A result starts at a `{` and ends just past a `}` that brings the depth
      back to zero; at every index in between the depth is positive. */
  lemma ExtractJsonBalanced(text: string, start: nat)
    requires ExtractJson(text, start).Some?
    ensures text[start] == '{' && text[ExtractJson(text, start).value.endIndex - 1] == '}'
    ensures StateAt(text, start, ExtractJson(text, start).value.endIndex).depth == 0
    ensures forall k :: start < k < ExtractJson(text, start).value.endIndex ==> StateAt(text, start, k).depth >= 1
  {
    var e := ExtractJson(text, start).value.endIndex;
    assert FirstClose(text, start, start) == Some(e);
    StateAtNext(text, start, e - 1);
    forall k | start < k < e
      ensures StateAt(text, start, k).depth >= 1
    {
      DepthPositive(text, start, k);
    }
  }

  /** There is no result exactly when the scan does not start at a `{` or
      the depth never returns to zero before the text ends. */
  lemma ExtractJsonNone(text: string, start: nat)
    ensures ExtractJson(text, start).None? <==>
      (start >= |text| || text[start] != '{' ||
       forall k :: start < k <= |text| ==> StateAt(text, start, k).depth >= 1)
  {
    if start < |text| && text[start] == '{' {
      if ExtractJson(text, start).None? {
        assert FirstClose(text, start, start).None?;
        forall k | start < k <= |text|
          ensures StateAt(text, start, k).depth >= 1
        {
          DepthPositive(text, start, k);
        }
      } else {
        ExtractJsonBalanced(text, start);
      }
    }
  }

  /** Reading `a` then `b` is reading `a + b`. */
  lemma {:induction false} RunAppend(st: ScanState, a: string, b: string)
    ensures Run(st, a + b) == Run(Run(st, a), b)
    decreases |b|
  {
    if |b| > 0 {
      assert (a + b)[..|a + b| - 1] == a + b[..|b| - 1];
      RunAppend(st, a, b[..|b| - 1]);
    } else {
      assert a + b == a;
    }
  }

  /** The inside of a JSON string: characters other than `"` and `\`, and
      backslash escapes of any one character. */
  predicate StringBody(s: string)
    decreases |s|
  {
    |s| == 0 ||
    (s[0] != '"' && s[0] != '\\' && StringBody(s[1..])) ||
    (|s| >= 2 && s[0] == '\\' && StringBody(s[2..]))
  }

  /** Reading a string body inside a string changes nothing: its braces and
      its escaped quotes are not counted. */
  lemma {:induction false} StringBodyIgnored(st: ScanState, s: string)
    requires st.inString && !st.escape && StringBody(s)
    ensures Run(st, s) == st
    decreases |s|
  {
    if |s| > 0 {
      if s[0] != '"' && s[0] != '\\' && StringBody(s[1..]) {
        assert Run(st, [s[0]]) == st by {
          assert [s[0]][..0] == [];
        }
        RunAppend(st, [s[0]], s[1..]);
        assert [s[0]] + s[1..] == s;
        StringBodyIgnored(st, s[1..]);
      } else {
        assert Run(st, s[..2]) == st by {
          assert s[..2][..1] == [s[0]];
          assert [s[0]][..0] == [];
          assert Run(st, [s[0]]) == st.(escape := true);
        }
        RunAppend(st, s[..2], s[2..]);
        assert s[..2] + s[2..] == s;
        StringBodyIgnored(st, s[2..]);
      }
    }
  }

  /** Outside a string, a whole quoted string leaves the depth where it was. */
  lemma QuotedStringIgnored(st: ScanState, s: string)
    requires !st.inString && !st.escape && StringBody(s)
    ensures Run(st, "\"" + s + "\"") == st
  {
    var open := st.(inString := true);
    assert Run(st, "\"") == open by {
      assert "\""[..0] == [];
    }
    RunAppend(st, "\"", s);
    StringBodyIgnored(open, s);
    RunAppend(st, "\"" + s, "\"");
    assert Run(open, "\"") == st by {
      assert "\""[..0] == [];
    }
  }

  // ---- Position independence ---------------------------------------------

  /** One unfolding of `FirstClose`. */
  lemma FirstCloseStep(text: string, start: nat, k: nat)
    requires start <= k <= |text|
    ensures FirstClose(text, start, k) ==
      if k == |text| then None
      else if Closes(StateAt(text, start, k), text[k]) then Some(k + 1)
      else FirstClose(text, start, k + 1)
  {
  }

  /** The scan state depends only on the characters read. */
  lemma StateAtSuffix(text: string, l: nat, start: nat, k: nat)
    requires l <= start <= k <= |text|
    ensures StateAt(text[l..], start - l, k - l) == StateAt(text, start, k)
  {
    assert text[l..][start - l..k - l] == text[start..k];
  }

  lemma StateAtExtend(text: string, t: string, start: nat, k: nat)
    requires start <= k <= |text|
    ensures StateAt(text + t, start, k) == StateAt(text, start, k)
  {
    assert (text + t)[start..k] == text[start..k];
  }

  /** The scan only looks at the text from its start on: dropping a prefix
      before the start shifts the result and changes nothing else. */
  lemma ExtractJsonSuffix(text: string, l: nat, start: nat)
    requires l <= start <= |text|
    ensures ExtractJson(text[l..], start - l) ==
      match ExtractJson(text, start)
      case None => None
      case Some(x) => Some(Extracted(x.json, x.endIndex - l))
  {
    hide *;
    ExtractJsonStep(text, start);
    ExtractJsonStep(text[l..], start - l);
    if start < |text| {
      assert text[l..][start - l] == text[start];
    }
    if start < |text| && text[start] == '{' {
      FirstCloseSuffix(text, l, start, start);
      match FirstClose(text, start, start)
      case None =>
      case Some(e) =>
        assert text[l..][start - l..e - l] == text[start..e];
    }
  }

  /** One unfolding of `ExtractJson`. */
  lemma ExtractJsonStep(text: string, start: nat)
    ensures ExtractJson(text, start) ==
      if start >= |text| || text[start] != '{' then None
      else match FirstClose(text, start, start)
        case None => None
        case Some(e) => Some(Extracted(text[start..e], e))
  {
  }

  lemma {:induction false} FirstCloseSuffix(text: string, l: nat, start: nat, k: nat)
    requires l <= start <= k <= |text|
    ensures FirstClose(text[l..], start - l, k - l) ==
      match FirstClose(text, start, k)
      case None => None
      case Some(e) => Some(e - l)
    decreases |text| - k
  {
    hide FirstClose, StateAt;
    FirstCloseStep(text, start, k);
    FirstCloseStep(text[l..], start - l, k - l);
    if k < |text| {
      StateAtSuffix(text, l, start, k);
      assert text[l..][k - l] == text[k];
      FirstCloseSuffix(text, l, start, k + 1);
    }
  }

  /** `json` is exactly one balanced object. */
  predicate IsObject(json: string) {
    ExtractJson(json, 0) == Some(Extracted(json, |json|))
  }

  /** What follows a balanced object does not change where it ends. */
  lemma ObjectThen(json: string, t: string)
    requires IsObject(json)
    ensures ExtractJson(json + t, 0) == Some(Extracted(json, |json|))
  {
    FirstCloseExtend(json, t, 0, 0);
    assert (json + t)[0..|json|] == json;
  }

  lemma {:induction false} FirstCloseExtend(text: string, t: string, start: nat, k: nat)
    requires start <= k <= |text| && FirstClose(text, start, k).Some?
    ensures FirstClose(text + t, start, k) == FirstClose(text, start, k)
    decreases |text| - k
  {
    hide FirstClose, StateAt;
    FirstCloseStep(text, start, k);
    FirstCloseStep(text + t, start, k);
    StateAtExtend(text, t, start, k);
    assert (text + t)[k] == text[k];
    if !Closes(StateAt(text, start, k), text[k]) {
      FirstCloseExtend(text, t, start, k + 1);
    }
  }

  /** No result unless the scan starts at a `{`. */
  lemma NotAnObjectStart(s: string)
    requires |s| == 0 || s[0] != '{'
    ensures ExtractJson(s, 0).None?
  {
  }

  /** `{}` is an object; a lone `{` is not. */
  lemma ObjectExamples()
    ensures IsObject("{}")
    ensures !IsObject("{")
  {
    var e := "{}";
    assert StateAt(e, 0, 1) == ScanState(1, false, false) by {
      assert e[0..1] == "{";
      assert "{"[..0] == [];
    }
    assert FirstClose(e, 0, 1) == Some(2);
    assert FirstClose(e, 0, 0) == Some(2);
    assert e[0..2] == e;
    assert ExtractJson("{", 0).None? by {
      assert FirstClose("{", 0, 1).None?;
      assert StateAt("{", 0, 0) == Initial;
    }
  }
}
