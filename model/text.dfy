/** Character- and byte-string helpers that mirror the JavaScript and Rust
    string operations used throughout the source (`split`, `join`, `trim`,
    `filter(Boolean)`, `trim_end_matches`, decimal formatting). */
module Text {
  import opened Wrappers

  /** A byte, as stored in a `Uint8Array` or a Rust `Vec<u8>`. */
  type Byte = b: int | 0 <= b < 256
  type Bytes = seq<Byte>

  /** JavaScript `s.split(sep)` for a one-character separator: the pieces
      between separators, one more piece than there are separators. */
  function Split(s: string, sep: char): (r: seq<string>)
    ensures |r| >= 1
    decreases |s|
  {
    if |s| == 0 then [""]
    else if s[0] == sep then [""] + Split(s[1..], sep)
    else
      var rest := Split(s[1..], sep);
      [[s[0]] + rest[0]] + rest[1..]
  }

  /** JavaScript `parts.join(sep)`. */
  function Join(parts: seq<string>, sep: string): string
  {
    if |parts| == 0 then ""
    else if |parts| == 1 then parts[0]
    else parts[0] + sep + Join(parts[1..], sep)
  }

  /** Splitting and joining with the same separator gives back the input. */
  lemma {:induction false} JoinSplit(s: string, sep: char)
    ensures Join(Split(s, sep), [sep]) == s
    decreases |s|
  {
    if |s| > 0 {
      hide Split, Join;
      JoinSplit(s[1..], sep);
      SplitFirst(s, sep);
      if s[0] == sep {
        JoinAfterEmpty(Split(s[1..], sep), [sep]);
      } else {
        JoinExtendFirst(s[0], Split(s[1..], sep), [sep]);
      }
      assert [s[0]] + s[1..] == s;
    }
  }

  /** `Split` undoes `Join` over pieces without the separator. */
  lemma {:induction false} SplitJoin(parts: seq<string>, sep: char)
    requires |parts| >= 1
    requires forall k :: 0 <= k < |parts| ==> sep !in parts[k]
    ensures Split(Join(parts, [sep]), sep) == parts
    decreases |parts|
  {
    if |parts| == 1 {
      SplitWithoutSeparator(parts[0], sep);
    } else {
      SplitJoin(parts[1..], sep);
      assert Join(parts, [sep]) == parts[0] + [sep] + Join(parts[1..], [sep]);
      SplitAppend(parts[0], Join(parts[1..], [sep]), sep);
      SplitWithoutSeparator(parts[0], sep);
      assert parts == [parts[0]] + parts[1..];
    }
  }

  /** Joining after an empty first piece starts with the separator. */
  lemma JoinAfterEmpty(rest: seq<string>, sep: string)
    requires |rest| >= 1
    ensures Join([""] + rest, sep) == sep + Join(rest, sep)
  {
    assert ([""] + rest)[1..] == rest;
  }

  /** Extending the first piece by one character extends the joined string. */
  lemma JoinExtendFirst(c: char, rest: seq<string>, sep: string)
    requires |rest| >= 1
    ensures Join([[c] + rest[0]] + rest[1..], sep) == [c] + Join(rest, sep)
  {
    var r := [[c] + rest[0]] + rest[1..];
    assert r[1..] == rest[1..];
    if |rest| > 1 {
      assert Join(r, sep) == r[0] + sep + Join(rest[1..], sep);
    }
  }

  /** Splitting at a separator between `a` and `b` splits each side on its own. */
  lemma {:induction false} SplitAppend(a: string, b: string, sep: char)
    ensures Split(a + [sep] + b, sep) == Split(a, sep) + Split(b, sep)
    decreases |a|
  {
    if |a| == 0 {
      assert a + [sep] + b == [sep] + b;
      SplitFirst([sep] + b, sep);
      assert ([sep] + b)[1..] == b;
    } else {
      var s := a + [sep] + b;
      SplitAppend(a[1..], b, sep);
      assert s[0] == a[0] && s[1..] == a[1..] + [sep] + b;
      SplitFirst(s, sep);
      SplitFirst(a, sep);
      SplitAppendStep(a[0], Split(a[1..], sep), Split(b, sep), sep);
    }
  }

  /** One unfolding of `Split`. */
  lemma SplitFirst(s: string, sep: char)
    requires |s| > 0
    ensures Split(s, sep) == (if s[0] == sep then [""] + Split(s[1..], sep) else [[s[0]] + Split(s[1..], sep)[0]] + Split(s[1..], sep)[1..])
  {
  }

  lemma SplitAppendStep(c: char, ra: seq<string>, rb: seq<string>, sep: char)
    requires |ra| >= 1
    ensures (if c == sep then [""] + (ra + rb) else [[c] + (ra + rb)[0]] + (ra + rb)[1..]) ==
      (if c == sep then [""] + ra else [[c] + ra[0]] + ra[1..]) + rb
  {
    if c != sep {
      assert (ra + rb)[0] == ra[0] && (ra + rb)[1..] == ra[1..] + rb;
    }
  }

  /** No piece of a split contains the separator. */
  lemma {:induction false} SplitPiecesAvoidSeparator(s: string, sep: char)
    ensures forall k :: 0 <= k < |Split(s, sep)| ==> sep !in Split(s, sep)[k]
    decreases |s|
  {
    if |s| > 0 {
      SplitPiecesAvoidSeparator(s[1..], sep);
    }
  }

  /** Every character of every piece comes from the split string. */
  lemma {:induction false} SplitPiecesChars(s: string, sep: char)
    ensures forall k, j :: 0 <= k < |Split(s, sep)| && 0 <= j < |Split(s, sep)[k]| ==> Split(s, sep)[k][j] in s
    decreases |s|
  {
    if |s| > 0 {
      SplitPiecesChars(s[1..], sep);
      SplitFirst(s, sep);
      assert forall c :: c in s[1..] ==> c in s;
    }
  }

  /** Splitting a string without the separator gives the string alone. */
  lemma {:induction false} SplitWithoutSeparator(s: string, sep: char)
    requires sep !in s
    ensures Split(s, sep) == [s]
    decreases |s|
  {
    if |s| > 0 {
      assert sep !in s[1..];
      SplitWithoutSeparator(s[1..], sep);
      assert [s[0]] + s[1..] == s;
    }
  }

  /** The last piece of `Split(s, sep)`: JavaScript `s.split(sep).pop()`,
      Rust `s.rsplit(sep).next()`. It is the part after the last separator,
      or all of `s` when there is none. */
  function LastPiece(s: string, sep: char): (r: string)
    ensures sep !in r
    ensures |r| <= |s| && r == s[|s| - |r|..]
    ensures |r| < |s| ==> s[|s| - |r| - 1] == sep
    ensures sep !in s ==> r == s
  {
    if |s| == 0 then ""
    else if s[|s| - 1] == sep then ""
    else LastPiece(s[..|s| - 1], sep) + [s[|s| - 1]]
  }

  /** The index of the first occurrence of `c` in `s`, if any. */
  function FindChar(s: string, c: char): (r: Option<nat>)
    ensures r.None? <==> c !in s
    ensures r.Some? ==> r.value < |s| && s[r.value] == c && c !in s[..r.value]
    decreases |s|
  {
    if |s| == 0 then None
    else if s[0] == c then Some(0)
    else match FindChar(s[1..], c)
      case None => None
      case Some(k) => assert s[..k + 1] == [s[0]] + s[1..][..k]; Some(k + 1)
  }

  /** `parts.filter(p => p !== '')`, also written `filter(Boolean)`. */
  function NonEmpty(parts: seq<string>): (r: seq<string>)
    ensures forall k :: 0 <= k < |r| ==> r[k] != ""
    ensures forall p :: p in r <==> p in parts && p != ""
  {
    if |parts| == 0 then []
    else if parts[0] == "" then NonEmpty(parts[1..])
    else [parts[0]] + NonEmpty(parts[1..])
  }

  /** Filtering keeps order and multiplicity: it works piece by piece, and a
      single piece is kept exactly when it is non-empty. */
  lemma {:induction false} NonEmptyAppend(a: seq<string>, b: seq<string>)
    ensures NonEmpty(a + b) == NonEmpty(a) + NonEmpty(b)
    ensures forall p :: NonEmpty([p]) == if p == "" then [] else [p]
    decreases |a|
  {
    forall p ensures NonEmpty([p]) == if p == "" then [] else [p] {
      assert [p][1..] == [];
    }
    if |a| > 0 {
      assert (a + b)[0] == a[0] && (a + b)[1..] == a[1..] + b;
      NonEmptyAppend(a[1..], b);
    } else {
      assert a + b == b;
    }
  }

  /** White space as `String.prototype.trim` and `\s` see it, restricted to
      the ASCII range. */
  predicate IsSpace(c: char) {
    c == ' ' || c == '\t' || c == '\n' || c == '\r' || c == '\U{000B}' || c == '\U{000C}'
  }

  /** `s.trimStart()` */
  function TrimStart(s: string): (r: string)
    ensures |r| <= |s|
  {
    if |s| > 0 && IsSpace(s[0]) then TrimStart(s[1..]) else s
  }

  /** `trimStart` drops the white space at the front and nothing else. */
  lemma {:induction false} TrimStartDrops(s: string)
    ensures TrimStart(s) == s[|s| - |TrimStart(s)|..]
    ensures TrimStart(s) == "" || !IsSpace(TrimStart(s)[0])
    ensures forall k :: 0 <= k < |s| - |TrimStart(s)| ==> IsSpace(s[k])
    decreases |s|
  {
    if |s| > 0 && IsSpace(s[0]) {
      TrimStartDrops(s[1..]);
    }
  }

  /** `s.trimEnd()` */
  function TrimEnd(s: string): (r: string)
    ensures |r| <= |s|
  {
    if |s| > 0 && IsSpace(s[|s| - 1]) then TrimEnd(s[..|s| - 1]) else s
  }

  /** `trimEnd` drops the white space at the back and nothing else. */
  lemma {:induction false} TrimEndDrops(s: string)
    ensures TrimEnd(s) == s[..|TrimEnd(s)|]
    ensures TrimEnd(s) == "" || !IsSpace(TrimEnd(s)[|TrimEnd(s)| - 1])
    ensures forall k :: |TrimEnd(s)| <= k < |s| ==> IsSpace(s[k])
    decreases |s|
  {
    if |s| > 0 && IsSpace(s[|s| - 1]) {
      TrimEndDrops(s[..|s| - 1]);
    }
  }

  /** `s.trim()` */
  function Trim(s: string): string {
    TrimEnd(TrimStart(s))
  }

  /** Rust `s.trim_end_matches(c)` for one character. */
  function TrimEndChar(s: string, c: char): (r: string)
    ensures |r| <= |s| && r == s[..|r|]
    ensures r == "" || r[|r| - 1] != c
    ensures forall k :: |r| <= k < |s| ==> s[k] == c
  {
    if |s| > 0 && s[|s| - 1] == c then TrimEndChar(s[..|s| - 1], c) else s
  }

  /** JavaScript `s.split(/\s+/)`: pieces separated by runs of white space.
      Leading white space gives an empty first piece. */
  function SplitSpaces(s: string): (r: seq<string>)
    ensures |r| >= 1
    decreases |s|
  {
    if |s| == 0 then [""]
    else if IsSpace(s[0]) then [""] + SplitSpaces(TrimStart(s))
    else
      var rest := SplitSpaces(s[1..]);
      [[s[0]] + rest[0]] + rest[1..]
  }

  /** No piece of `SplitSpaces` holds white space. */
  lemma {:induction false} SplitSpacesPiecesHaveNoSpace(s: string)
    ensures forall k, i :: 0 <= k < |SplitSpaces(s)| && 0 <= i < |SplitSpaces(s)[k]| ==> !IsSpace(SplitSpaces(s)[k][i])
    decreases |s|
  {
    if |s| > 0 {
      if IsSpace(s[0]) {
        SplitSpacesPiecesHaveNoSpace(TrimStart(s));
      } else {
        SplitSpacesPiecesHaveNoSpace(s[1..]);
        var rest := SplitSpaces(s[1..]);
        assert forall i :: 0 <= i < |rest[0]| ==> !IsSpace(rest[0][i]);
      }
    }
  }

  /** The first piece of `SplitSpaces(s)` is the longest prefix of `s` without white space. */
  lemma {:induction false} SplitSpacesFirst(s: string)
    ensures SplitSpaces(s)[0] <= s
    ensures |SplitSpaces(s)[0]| == |s| || IsSpace(s[|SplitSpaces(s)[0]|])
    decreases |s|
  {
    if |s| > 0 && !IsSpace(s[0]) {
      SplitSpacesFirst(s[1..]);
      assert [s[0]] + s[1..] == s;
    }
  }

  // ---- Decimal numbers -------------------------------------------------

  predicate IsDigit(c: char) {
    '0' <= c <= '9'
  }

  function DigitChar(d: nat): (c: char)
    requires d < 10
    ensures IsDigit(c) && c as int - '0' as int == d
  {
    ['0', '1', '2', '3', '4', '5', '6', '7', '8', '9'][d]
  }

  /** The decimal form of `n`, as `format!("{}", n)` or `String(n)` write it. */
  function Decimal(n: nat): (r: string)
    ensures |r| >= 1
    ensures forall k :: 0 <= k < |r| ==> IsDigit(r[k])
  {
    if n < 10 then [DigitChar(n)] else Decimal(n / 10) + [DigitChar(n % 10)]
  }

  /** The value of a run of decimal digits, read left to right; the empty run reads as 0. */
  function DigitsValue(s: string): nat
    requires forall k :: 0 <= k < |s| ==> IsDigit(s[k])
  {
    if |s| == 0 then 0
    else
      assert IsDigit(s[|s| - 1]);
      DigitsValue(s[..|s| - 1]) * 10 + (s[|s| - 1] as int - '0' as int)
  }

  /** Reading back the decimal form of a number gives the number. */
  lemma {:induction false} DigitsValueDecimal(n: nat)
    ensures DigitsValue(Decimal(n)) == n
  {
    if n >= 10 {
      DigitsValueDecimal(n / 10);
      var s := Decimal(n);
      assert s[..|s| - 1] == Decimal(n / 10);
    }
  }

  /** `format!("{:>w}", s)`: right-align in a field of `w` characters. */
  function PadLeft(s: string, w: nat): (r: string)
    ensures |r| == if |s| >= w then |s| else w
    ensures s <= r[|r| - |s|..] && r[|r| - |s|..] == s
    ensures forall k :: 0 <= k < |r| - |s| ==> r[k] == ' '
  {
    if |s| >= w then s else Repeat(' ', w - |s|) + s
  }

  /** `c.repeat(n)` */
  function Repeat(c: char, n: nat): (r: string)
    ensures |r| == n && forall k :: 0 <= k < n ==> r[k] == c
  {
    if n == 0 then "" else [c] + Repeat(c, n - 1)
  }
}
