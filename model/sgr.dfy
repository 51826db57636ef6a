/** Select Graphic Rendition (section 8.3.117 of ECMA-48) as the terminal's
    screen buffer and the older span parser apply it: the style record they
    keep, their 16-colour palettes and the xterm 256-colour table. */
module Sgr {
  import opened Wrappers
  import opened Text

  /** The CSS properties SGR sets: `fontWeight: 'bold'`, `opacity: 0.7`,
      `fontStyle: 'italic'`, `textDecoration: 'underline'`, `color` and
      `backgroundColor`. An absent property is `false` or `None`. */
  datatype Style = Style(bold: bool, dim: bool, italic: bool, underline: bool,
                         color: Option<string>, background: Option<string>)

  /** `{}` */
  const Plain := Style(false, false, false, false, None, None)

  /** The VS Code-like palette: `ansiColorToHex` in the screen buffer and the
      `COLORS` table (30-37, 90-97) in the span parser. */
  const VscodePalette: seq<string> := [
    "#000000", "#f44747", "#6a9955", "#dcdcaa", "#569cd6", "#c586c0", "#4ec9b0", "#d4d4d4",
    "#808080", "#f44747", "#6a9955", "#dcdcaa", "#569cd6", "#c586c0", "#4ec9b0", "#ffffff"]

  /** The xterm standard colours the span parser uses for 256-colour indices below 16. */
  const XtermPalette: seq<string> := [
    "#000000", "#800000", "#008000", "#808000", "#000080", "#800080", "#008080", "#c0c0c0",
    "#808080", "#ff0000", "#00ff00", "#ffff00", "#0000ff", "#ff00ff", "#00ffff", "#ffffff"]

  /** Which table a component uses for 256-colour indices below 16. */
  datatype LowColours = Vscode | Xterm

  function LowPalette(low: LowColours): (p: seq<string>)
    ensures |p| == 16
  {
    if low == Vscode then VscodePalette else XtermPalette
  }

  // ---- Hexadecimal -----------------------------------------------------

  predicate IsHexDigit(c: char) {
    '0' <= c <= '9' || 'a' <= c <= 'f'
  }

  function HexDigit(d: nat): (c: char)
    requires d < 16
    ensures IsHexDigit(c)
  {
    "0123456789abcdef"[d]
  }

  function HexDigitValue(c: char): (d: nat)
    requires IsHexDigit(c)
    ensures d < 16
  {
    if c <= '9' then c as int - '0' as int else c as int - 'a' as int + 10
  }

  /** `n.toString(16)` */
  function Hex(n: nat): (r: string)
    ensures |r| >= 1 && forall k :: 0 <= k < |r| ==> IsHexDigit(r[k])
  {
    if n < 16 then [HexDigit(n)] else Hex(n / 16) + [HexDigit(n % 16)]
  }

  /** The value of a run of lower-case hexadecimal digits; the empty run reads as 0. */
  function HexValue(s: string): nat
    requires forall k :: 0 <= k < |s| ==> IsHexDigit(s[k])
  {
    if |s| == 0 then 0 else HexValue(s[..|s| - 1]) * 16 + HexDigitValue(s[|s| - 1])
  }

  /** Reading back the hexadecimal form of a number gives the number. */
  lemma {:induction false} HexValueHex(n: nat)
    ensures HexValue(Hex(n)) == n
  {
    if n >= 16 {
      HexValueHex(n / 16);
      var s := Hex(n);
      assert s[..|s| - 1] == Hex(n / 16);
      assert HexDigitValue(HexDigit(n % 16)) == n % 16 by {
        assert "0123456789abcdef"[n % 16] as int - (if n % 16 < 10 then '0' as int else 'a' as int - 10) == n % 16;
      }
    } else {
      assert HexDigitValue(HexDigit(n)) == n by {
        assert "0123456789abcdef"[n] as int - (if n < 10 then '0' as int else 'a' as int - 10) == n;
      }
    }
  }

  /** A number below 256 has at most two hexadecimal digits. */
  lemma HexLength(n: nat)
    requires n < 256
    ensures |Hex(n)| <= 2
  {
    if n >= 16 {
      assert n / 16 < 16;
    }
  }

  /** `s.padStart(2, '0')` */
  function Pad2(s: string): (r: string)
    ensures |r| == if |s| >= 2 then |s| else 2
  {
    if |s| >= 2 then s else Repeat('0', 2 - |s|) + s
  }

  /** A leading zero does not change the value. */
  lemma {:induction false} HexValueLeadingZero(s: string)
    requires forall k :: 0 <= k < |s| ==> IsHexDigit(s[k])
    ensures HexValue("0" + s) == HexValue(s)
    decreases |s|
  {
    if |s| == 0 {
      assert ("0" + s)[..0] == [];
    } else {
      assert ("0" + s)[..|"0" + s| - 1] == "0" + s[..|s| - 1];
      HexValueLeadingZero(s[..|s| - 1]);
    }
  }

  /** The two-digit form of a byte reads back as the byte. */
  lemma Byte2(n: nat)
    requires n < 256
    ensures |Pad2(Hex(n))| == 2
    ensures forall k :: 0 <= k < 2 ==> IsHexDigit(Pad2(Hex(n))[k])
    ensures HexValue(Pad2(Hex(n))) == n
  {
    HexLength(n);
    HexValueHex(n);
    if |Hex(n)| == 1 {
      assert Pad2(Hex(n)) == "0" + Hex(n);
      HexValueLeadingZero(Hex(n));
    }
  }

  // ---- The 256-colour table --------------------------------------------

  /** The intensity of cube step `v`: 0, then 95, 135, 175, 215, 255. */
  function CubeLevel(v: nat): (r: nat)
    ensures v < 6 ==> r < 256
  {
    if v == 0 then 0 else 55 + v * 40
  }

  /** `ansi256ToHex(n)`; `None` is an index past the end of the parameter
      list, which the source reads as `undefined`, giving `#NaNNaNNaN`. */
  function Ansi256(low: LowColours, n: Option<nat>): (r: string)
    ensures n.Some? && n.value < 16 ==> r == LowPalette(low)[n.value]
  {
    match n
    case None => "#NaNNaNNaN"
    case Some(n) =>
      if n < 16 then LowPalette(low)[n]
      else if n < 232 then
        var i := n - 16;
        "#" + Pad2(Hex(CubeLevel(i / 36))) + Pad2(Hex(CubeLevel(i % 36 / 6))) + Pad2(Hex(CubeLevel(i % 6)))
      else
        var hex := Pad2(Hex(8 + (n - 232) * 10));
        "#" + hex + hex + hex
  }

  /** `#rrggbb` read back as three intensities. */
  function ParseColour(s: string): Option<(nat, nat, nat)> {
    if |s| == 7 && s[0] == '#' && forall k :: 1 <= k < 7 ==> IsHexDigit(s[k]) then
      Some((HexValue(s[1..3]), HexValue(s[3..5]), HexValue(s[5..7])))
    else None
  }

  lemma ParseThree(a: string, b: string, c: string)
    requires |a| == 2 && |b| == 2 && |c| == 2
    requires forall k :: 0 <= k < 2 ==> IsHexDigit(a[k]) && IsHexDigit(b[k]) && IsHexDigit(c[k])
    ensures ParseColour("#" + a + b + c) == Some((HexValue(a), HexValue(b), HexValue(c)))
  {
    var s := "#" + a + b + c;
    assert s[1..3] == a && s[3..5] == b && s[5..7] == c;
    assert forall k :: 1 <= k < 7 ==> IsHexDigit(s[k]) by {
      forall k | 1 <= k < 7 ensures IsHexDigit(s[k]) {
        if k < 3 { assert s[k] == a[k - 1]; }
        else if k < 5 { assert s[k] == b[k - 3]; }
        else { assert s[k] == c[k - 5]; }
      }
    }
  }

  /** Indices 16-231 are the 6x6x6 cube: each component is 0 or 55+40v. */
  lemma CubeColour(low: LowColours, n: nat)
    requires 16 <= n < 232
    ensures ParseColour(Ansi256(low, Some(n))) ==
      Some((CubeLevel((n - 16) / 36), CubeLevel((n - 16) % 36 / 6), CubeLevel((n - 16) % 6)))
  {
    hide Pad2, Hex, HexValue, ParseColour;
    var i := n - 16;
    var r, g, b := CubeLevel(i / 36), CubeLevel(i % 36 / 6), CubeLevel(i % 6);
    assert Ansi256(low, Some(n)) == "#" + Pad2(Hex(r)) + Pad2(Hex(g)) + Pad2(Hex(b));
    Byte2(r);
    Byte2(g);
    Byte2(b);
    ParseThree(Pad2(Hex(r)), Pad2(Hex(g)), Pad2(Hex(b)));
  }

  /** Indices 232-255 are the grey ramp 8+10(n-232). */
  lemma GreyColour(low: LowColours, n: nat)
    requires 232 <= n < 256
    ensures ParseColour(Ansi256(low, Some(n))) ==
      Some((8 + (n - 232) * 10, 8 + (n - 232) * 10, 8 + (n - 232) * 10))
  {
    var g := 8 + (n - 232) * 10;
    Byte2(g);
    ParseThree(Pad2(Hex(g)), Pad2(Hex(g)), Pad2(Hex(g)));
  }

  /** The intensities of the cube never fall on the grey ramp's. */
  lemma CubeLevelNotGrey(v: nat, k: nat)
    requires v < 6 && k < 24
    ensures CubeLevel(v) != 8 + 10 * k
  {
  }

  lemma CubeLevelInjective(v: nat, w: nat)
    requires v < 6 && w < 6 && CubeLevel(v) == CubeLevel(w)
    ensures v == w
  {
  }

  /** A cube index is its three base-6 digits. */
  lemma CubeDigits(i: nat)
    requires i < 216
    ensures i == 36 * (i / 36) + 6 * (i % 36 / 6) + i % 6
    ensures i / 36 < 6 && i % 36 / 6 < 6
  {
  }

  /** The intensities `ansi256ToHex` gives index `n` (16-255). */
  function Intensities(n: nat): (nat, nat, nat)
    requires 16 <= n < 256
  {
    if n < 232 then (CubeLevel((n - 16) / 36), CubeLevel((n - 16) % 36 / 6), CubeLevel((n - 16) % 6))
    else (8 + (n - 232) * 10, 8 + (n - 232) * 10, 8 + (n - 232) * 10)
  }

  /** No two indices 16-255 have the same intensities. */
  lemma IntensitiesDistinct(n: nat, m: nat)
    requires 16 <= n < 256 && 16 <= m < 256 && Intensities(n) == Intensities(m)
    ensures n == m
  {
    if n < 232 && m < 232 {
      var i, j := n - 16, m - 16;
      CubeDigits(i);
      CubeDigits(j);
      CubeLevelInjective(i / 36, j / 36);
      CubeLevelInjective(i % 36 / 6, j % 36 / 6);
      CubeLevelInjective(i % 6, j % 6);
    } else if n < 232 {
      CubeDigits(n - 16);
      CubeLevelNotGrey((n - 16) / 36, m - 232);
    } else if m < 232 {
      CubeDigits(m - 16);
      CubeLevelNotGrey((m - 16) / 36, n - 232);
    }
  }

  /** Indices 16-255 name 240 different colours. */
  lemma Ansi256Distinct(low: LowColours, n: nat, m: nat)
    requires 16 <= n < 256 && 16 <= m < 256 && n != m
    ensures Ansi256(low, Some(n)) != Ansi256(low, Some(m))
  {
    if n < 232 { CubeColour(low, n); } else { GreyColour(low, n); }
    if m < 232 { CubeColour(low, m); } else { GreyColour(low, m); }
    assert ParseColour(Ansi256(low, Some(n))) == Some(Intensities(n));
    assert ParseColour(Ansi256(low, Some(m))) == Some(Intensities(m));
    if Ansi256(low, Some(n)) == Ansi256(low, Some(m)) {
      IntensitiesDistinct(n, m);
    }
  }

  // ---- Applying a parameter list ---------------------------------------

  /** The codes with an effect of their own (besides `38;5;N` and `48;5;N`). */
  predicate Recognised(c: nat) {
    c <= 4 || 30 <= c <= 37 || 40 <= c <= 47 || 90 <= c <= 97 || 100 <= c <= 107
  }

  /** The style after one recognised code. */
  function ApplyCode(st: Style, c: nat): (r: Style)
    requires Recognised(c)
  {
    if c == 0 then Plain
    else if c == 1 then st.(bold := true)
    else if c == 2 then st.(dim := true)
    else if c == 3 then st.(italic := true)
    else if c == 4 then st.(underline := true)
    else if c <= 37 then st.(color := Some(VscodePalette[c - 30]))
    else if c <= 47 then st.(background := Some(VscodePalette[c - 40]))
    else if c <= 97 then st.(color := Some(VscodePalette[c - 90 + 8]))
    else st.(background := Some(VscodePalette[c - 100 + 8]))
  }

  /** The style after applying `codes` left to right. `38;5;N` and `48;5;N`
      take their two arguments with them; any other code has no effect. */
  function Apply(low: LowColours, st: Style, codes: seq<nat>): Style
    decreases |codes|
  {
    if |codes| == 0 then st
    else
      var c := codes[0];
      if Recognised(c) then Apply(low, ApplyCode(st, c), codes[1..])
      else if (c == 38 || c == 48) && |codes| > 1 && codes[1] == 5 then
        var colour := Ansi256(low, if |codes| > 2 then Some(codes[2]) else None);
        var next := if c == 38 then st.(color := Some(colour)) else st.(background := Some(colour));
        Apply(low, next, codes[if |codes| > 2 then 3 else |codes|..])
      else Apply(low, st, codes[1..])
  }

  /** The loop over the parameters (`applySgr`, and the inner loop of `parseAnsi`). */
  method ApplyCodes(low: LowColours, style: Style, codes: seq<nat>) returns (r: Style)
    ensures r == Apply(low, style, codes)
  {
    r := style;
    var i := 0;
    while i < |codes|
      invariant 0 <= i
      invariant Apply(low, style, codes) == Apply(low, r, codes[if i <= |codes| then i else |codes|..])
    {
      var code := codes[i];
      if code == 0 {
        r := Plain;
      } else if code == 1 {
        r := r.(bold := true);
      } else if code == 2 {
        r := r.(dim := true);
      } else if code == 3 {
        r := r.(italic := true);
      } else if code == 4 {
        r := r.(underline := true);
      } else if 30 <= code <= 37 {
        r := r.(color := Some(VscodePalette[code - 30]));
      } else if 40 <= code <= 47 {
        r := r.(background := Some(VscodePalette[code - 40]));
      } else if 90 <= code <= 97 {
        r := r.(color := Some(VscodePalette[code - 90 + 8]));
      } else if 100 <= code <= 107 {
        r := r.(background := Some(VscodePalette[code - 100 + 8]));
      } else if code == 38 && i + 1 < |codes| && codes[i + 1] == 5 {
        r := r.(color := Some(Ansi256(low, if i + 2 < |codes| then Some(codes[i + 2]) else None)));
        i := i + 2;
      } else if code == 48 && i + 1 < |codes| && codes[i + 1] == 5 {
        r := r.(background := Some(Ansi256(low, if i + 2 < |codes| then Some(codes[i + 2]) else None)));
        i := i + 2;
      }
      i := i + 1;
    }
  }

  /** A list with no `38` or `48` in it. */
  predicate Plainly(codes: seq<nat>) {
    forall k :: 0 <= k < |codes| ==> codes[k] != 38 && codes[k] != 48
  }

  /** Such a list can be applied in pieces: codes accumulate. */
  lemma {:induction false} ApplyAppend(low: LowColours, st: Style, a: seq<nat>, b: seq<nat>)
    requires Plainly(a)
    ensures Apply(low, st, a + b) == Apply(low, Apply(low, st, a), b)
    decreases |a|
  {
    if |a| == 0 {
      assert a + b == b;
    } else {
      assert (a + b)[1..] == a[1..] + b;
      assert a[0] != 38 && a[0] != 48;
      var next := if Recognised(a[0]) then ApplyCode(st, a[0]) else st;
      ApplyAppend(low, next, a[1..], b);
    }
  }

  /** A `0` clears everything before it. */
  lemma ResetForgets(low: LowColours, st: Style, a: seq<nat>, b: seq<nat>)
    requires Plainly(a)
    ensures Apply(low, st, a + [0] + b) == Apply(low, Plain, b)
  {
    ApplyAppend(low, st, a, [0] + b);
    assert a + [0] + b == a + ([0] + b);
    assert ([0] + b)[1..] == b;
  }

  /** A code without an effect leaves the style as it was. */
  lemma UnknownIgnored(low: LowColours, st: Style, c: nat, rest: seq<nat>)
    requires !Recognised(c) && c != 38 && c != 48
    ensures Apply(low, st, [c] + rest) == Apply(low, st, rest)
  {
    assert ([c] + rest)[1..] == rest;
  }

  /** `1;31` gives bold red; `0` after it clears both. */
  lemma BoldRed(low: LowColours)
    ensures Apply(low, Plain, [1, 31]) == Plain.(bold := true, color := Some("#f44747"))
    ensures Apply(low, Plain, [1, 31, 0]) == Plain
  {
    assert [1, 31][1..] == [31];
    assert [1, 31, 0][1..] == [31, 0];
    assert [31, 0][1..] == [0];
  }
}
