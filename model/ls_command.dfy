/** The `ls` command: reads clustered options and one path, then lists the
    directory in long form, one name per line, or in a grid of columns, with
    its subdirectories under `-R`. */
module LsCommand {
  import opened Wrappers
  import opened Text
  import opened CommandCore

  /* ---------------- options ---------------- */

  datatype LsOptions = LsOptions(showAll: bool, longFormat: bool, onePerLine: bool,
                                 humanReadable: bool, reverse: bool, recursive: bool)

  const NoOptions := LsOptions(false, false, false, false, false, false)

  /** How the argument loop ends: with the options and the first operand,
      on a letter it does not know, or on `--help`. */
  datatype ParsedArgs = Parsed(opts: LsOptions, target: Option<string>) | InvalidOption(letter: char) | HelpRequested

  const Usage := "Usage: ls [-1alhRr] [path]\n"

  const Help :=
    "Usage: ls [OPTION]... [PATH]\n" +
    "\n" +
    "Options:\n" +
    "  -a        show hidden files (starting with .)\n" +
    "  -l        use long listing format\n" +
    "  -1        list one file per line\n" +
    "  -h        human-readable sizes (with -l)\n" +
    "  -r        reverse order while sorting\n" +
    "  -R        list subdirectories recursively\n" +
    "  --help    display this help\n"

  /** An argument read as a cluster of one-letter options: `-` and at least
      one more character, not `--`. */
  predicate IsCluster(arg: string) {
    |arg| > 1 && arg[0] == '-' && arg[1] != '-'
  }

  predicate IsOptionLetter(c: char) {
    c == 'a' || c == 'l' || c == '1' || c == 'h' || c == 'r' || c == 'R'
  }

  /** One option letter. */
  function SetLetter(o: LsOptions, c: char): (r: LsOptions)
    requires IsOptionLetter(c)
  {
    match c
    case 'a' => o.(showAll := true)
    case 'l' => o.(longFormat := true)
    case '1' => o.(onePerLine := true)
    case 'h' => o.(humanReadable := true)
    case 'r' => o.(reverse := true)
    case 'R' => o.(recursive := true)
  }

  /** The letters of a cluster in order, up to the first unknown one. */
  function Letters(o: LsOptions, letters: string): (r: Result<LsOptions, char>)
    decreases |letters|
  {
    if |letters| == 0 then Ok(o)
    else if !IsOptionLetter(letters[0]) then Err(letters[0])
    else Letters(SetLetter(o, letters[0]), letters[1..])
  }

  /** A cluster is refused exactly when it holds a letter that is not an
      option, and the letter reported is the first such one. */
  lemma {:induction false} LettersFirstUnknown(o: LsOptions, letters: string)
    ensures Letters(o, letters).Err? <==> exists k :: 0 <= k < |letters| && !IsOptionLetter(letters[k])
    ensures Letters(o, letters).Err? ==> exists k :: (0 <= k < |letters| && letters[k] == Letters(o, letters).error &&
      !IsOptionLetter(letters[k]) && forall j :: 0 <= j < k ==> IsOptionLetter(letters[j]))
    decreases |letters|
  {
    if |letters| > 0 && IsOptionLetter(letters[0]) {
      var rest := letters[1..];
      LettersFirstUnknown(SetLetter(o, letters[0]), rest);
      assert forall k :: 1 <= k < |letters| ==> letters[k] == rest[k - 1];
      var r := Letters(o, letters);
      if r.Err? {
        var k :| 0 <= k < |rest| && rest[k] == r.error && !IsOptionLetter(rest[k]) &&
          forall j :: 0 <= j < k ==> IsOptionLetter(rest[j]);
        assert letters[k + 1] == r.error;
        forall j | 0 <= j < k + 1 ensures IsOptionLetter(letters[j]) {
          if j > 0 {
            assert letters[j] == rest[j - 1];
          }
        }
      }
    }
  }

  /** The argument loop from a given point on: clusters set options, `--help`
      ends it, and the first other argument becomes the operand while later
      ones are ignored. */
  function ParseFrom(o: LsOptions, target: Option<string>, args: seq<string>): (r: ParsedArgs)
    ensures r.Parsed? && target.Some? ==> r.target == target
    ensures r.Parsed? && target.None? && (forall k :: 0 <= k < |args| ==> IsCluster(args[k])) ==> r.target == None
    decreases |args|
  {
    if |args| == 0 then Parsed(o, target)
    else
      var arg := args[0];
      if IsCluster(arg) then
        match Letters(o, arg[1..])
        case Err(c) => InvalidOption(c)
        case Ok(o') => ParseFrom(o', target, args[1..])
      else if arg == "--help" then HelpRequested
      else ParseFrom(o, if target.None? then Some(arg) else target, args[1..])
  }

  /** The loop in `run` that reads the arguments. */
  method ParseArgs(args: seq<string>) returns (r: ParsedArgs)
    ensures r == ParseFrom(NoOptions, None, args)
  {
    var opts := NoOptions;
    var target: Option<string> := None;
    var i := 0;
    while i < |args|
      invariant i <= |args|
      invariant ParseFrom(NoOptions, None, args) == ParseFrom(opts, target, args[i..])
    {
      var arg := args[i];
      assert args[i..][1..] == args[i + 1..];
      if |arg| > 1 && arg[0] == '-' && arg[1] != '-' {
        var letters := arg[1..];
        var clusterStart := opts;
        var j := 0;
        while j < |letters|
          invariant j <= |letters|
          invariant Letters(clusterStart, letters) == Letters(opts, letters[j..])
        {
          assert letters[j..][1..] == letters[j + 1..];
          var c := letters[j];
          if !IsOptionLetter(c) {
            return InvalidOption(c);
          }
          opts := SetLetter(opts, c);
          j := j + 1;
        }
        assert letters[j..] == [];
      } else if arg == "--help" {
        return HelpRequested;
      } else if target.None? {
        target := Some(arg);
      }
      i := i + 1;
    }
    assert args[i..] == [];
    r := Parsed(opts, target);
  }

  /** Letters cluster freely, `-` is an operand, the first operand wins, and
      an unknown letter ends the loop however many arguments follow. */
  lemma ParseExamples()
    ensures ParseFrom(NoOptions, None, ["-la"]) == Parsed(NoOptions.(showAll := true, longFormat := true), None)
    ensures ParseFrom(NoOptions, None, ["-", "x"]) == Parsed(NoOptions, Some("-"))
    ensures ParseFrom(NoOptions, None, ["a", "-R", "b"]) == Parsed(NoOptions.(recursive := true), Some("a"))
    ensures ParseFrom(NoOptions, None, ["-lz", "--help"]) == InvalidOption('z')
    ensures ParseFrom(NoOptions, None, ["--help", "-z"]) == HelpRequested
    ensures ParseFrom(NoOptions, None, ["--all"]) == Parsed(NoOptions, Some("--all"))
  {
    assert "-la"[1..] == ['l', 'a'] && ['l', 'a'][1..] == ['a'];
    assert ["-", "x"][1..] == ["x"];
    assert ["a", "-R", "b"][1..] == ["-R", "b"] && ["-R", "b"][1..] == ["b"];
    assert "-R"[1..] == ['R'] && ['R'][1..] == [] && ["b"][1..] == [];
    assert !IsCluster("a") && !IsCluster("b") && "a" != "--help" && "b" != "--help";
    assert ParseFrom(NoOptions.(recursive := true), Some("a"), ["b"]) == Parsed(NoOptions.(recursive := true), Some("a"));
    assert "-lz"[1..] == ['l', 'z'] && ['l', 'z'][1..] == ['z'];
    assert "--all" != "--help" by { assert "--all"[2] != "--help"[2]; }
  }

  /* ---------------- the entries of a directory ---------------- */

  /** Hidden names start with a dot; `-a` shows them too. */
  function Visible(entries: seq<DirEntry>, showAll: bool): (r: seq<DirEntry>)
    ensures showAll ==> r == entries
    ensures forall e :: e in r <==> e in entries && (showAll || !(|e.name| > 0 && e.name[0] == '.'))
  {
    if showAll || |entries| == 0 then entries
    else
      var rest := Visible(entries[1..], showAll);
      assert forall e :: e in entries <==> e == entries[0] || e in entries[1..];
      if |entries[0].name| > 0 && entries[0].name[0] == '.' then rest else [entries[0]] + rest
  }

  /** Rust's order on strings: lexicographic by character, a proper prefix
      first. */
  predicate NameLe(a: string, b: string)
    decreases |a|
  {
    |a| == 0 || (|b| > 0 && (a[0] < b[0] || (a[0] == b[0] && NameLe(a[1..], b[1..]))))
  }

  lemma {:induction false} NameLeTotal(a: string, b: string)
    ensures NameLe(a, b) || NameLe(b, a)
    decreases |a|
  {
    if |a| > 0 && |b| > 0 && a[0] == b[0] {
      NameLeTotal(a[1..], b[1..]);
    }
  }

  lemma {:induction false} NameLeTrans(a: string, b: string, c: string)
    requires NameLe(a, b) && NameLe(b, c)
    ensures NameLe(a, c)
    decreases |a|
  {
    if |a| > 0 && a[0] == b[0] && b[0] == c[0] {
      NameLeTrans(a[1..], b[1..], c[1..]);
    }
  }

  predicate SortedByName(s: seq<DirEntry>) {
    forall i, j :: 0 <= i < j < |s| ==> NameLe(s[i].name, s[j].name)
  }

  /** Places `e` after every entry whose name is not greater, which keeps
      entries with equal names in their original order. */
  function InsertByName(s: seq<DirEntry>, e: DirEntry): (r: seq<DirEntry>)
    ensures multiset(r) == multiset(s) + multiset{e}
    ensures |r| == |s| + 1
  {
    if |s| == 0 then [e]
    else if !NameLe(s[0].name, e.name) then [e] + s
    else
      assert s == [s[0]] + s[1..];
      [s[0]] + InsertByName(s[1..], e)
  }

  lemma {:induction false} InsertKeepsSorted(s: seq<DirEntry>, e: DirEntry)
    requires SortedByName(s)
    ensures SortedByName(InsertByName(s, e))
    ensures forall x :: x in InsertByName(s, e) ==> x in s || x == e
    decreases |s|
  {
    if |s| > 0 {
      if !NameLe(s[0].name, e.name) {
        InsertFirst(s, e);
      } else {
        InsertKeepsSorted(s[1..], e);
        InsertLater(s, e);
      }
    }
  }

  /** `e` goes first when it is smaller than the head. */
  lemma InsertFirst(s: seq<DirEntry>, e: DirEntry)
    requires SortedByName(s) && |s| > 0 && !NameLe(s[0].name, e.name)
    ensures SortedByName([e] + s)
  {
    NameLeTotal(s[0].name, e.name);
    forall j | 0 <= j < |s| ensures NameLe(e.name, s[j].name) {
      if j > 0 {
        NameLeTrans(e.name, s[0].name, s[j].name);
      }
    }
    assert forall j :: 1 <= j < |[e] + s| ==> ([e] + s)[j] == s[j - 1];
  }

  /** Otherwise the head stays in front of the tail with `e` inserted. */
  lemma InsertLater(s: seq<DirEntry>, e: DirEntry)
    requires SortedByName(s) && |s| > 0 && NameLe(s[0].name, e.name)
    requires SortedByName(InsertByName(s[1..], e))
    requires forall x :: x in InsertByName(s[1..], e) ==> x in s[1..] || x == e
    ensures SortedByName([s[0]] + InsertByName(s[1..], e))
  {
    var r := InsertByName(s[1..], e);
    HeadBelowAll(s, e, r);
    SortedCons(s[0], r);
  }

  /** The head of a sorted list is below every entry drawn from its tail or
      above it. */
  lemma HeadBelowAll(s: seq<DirEntry>, e: DirEntry, r: seq<DirEntry>)
    requires SortedByName(s) && |s| > 0 && NameLe(s[0].name, e.name)
    requires forall x :: x in r ==> x in s[1..] || x == e
    ensures forall k :: 0 <= k < |r| ==> NameLe(s[0].name, r[k].name)
  {
    hide NameLe;
    forall k | 0 <= k < |r| ensures NameLe(s[0].name, r[k].name) {
      assert r[k] in r;
      if r[k] != e {
        var m :| 0 <= m < |s[1..]| && s[1..][m] == r[k];
        assert s[m + 1] == r[k];
      }
    }
  }

  /** An entry below every entry of a sorted list can go in front of it. */
  lemma SortedCons(a: DirEntry, r: seq<DirEntry>)
    requires SortedByName(r) && forall k :: 0 <= k < |r| ==> NameLe(a.name, r[k].name)
    ensures SortedByName([a] + r)
  {
    hide NameLe;
    var t := [a] + r;
    forall i, j | 0 <= i < j < |t| ensures NameLe(t[i].name, t[j].name) {
      assert t[j] == r[j - 1];
      if i > 0 {
        assert t[i] == r[i - 1];
      }
    }
  }

  /** `files.sort_by(|a, b| a.name.cmp(&b.name))`: a stable sort by name. */
  function SortByName(s: seq<DirEntry>): (r: seq<DirEntry>)
    ensures multiset(r) == multiset(s)
  {
    if |s| == 0 then []
    else
      assert s == s[..|s| - 1] + [s[|s| - 1]];
      InsertByName(SortByName(s[..|s| - 1]), s[|s| - 1])
  }

  /** The sort yields the entries in ascending order of name. */
  lemma {:induction false} SortByNameSorted(s: seq<DirEntry>)
    ensures SortedByName(SortByName(s))
    decreases |s|
  {
    if |s| > 0 {
      SortByNameSorted(s[..|s| - 1]);
      InsertKeepsSorted(SortByName(s[..|s| - 1]), s[|s| - 1]);
    }
  }

  function Reverse(s: seq<DirEntry>): (r: seq<DirEntry>)
    ensures |r| == |s| && forall k :: 0 <= k < |s| ==> r[k] == s[|s| - 1 - k]
  {
    if |s| == 0 then [] else Reverse(s[1..]) + [s[0]]
  }

  /** The entries in listing order: the visible ones, sorted by name, and
      reversed under `-r`. */
  function Arrange(entries: seq<DirEntry>, opts: LsOptions): (r: seq<DirEntry>)
  {
    var sorted := SortByName(Visible(entries, opts.showAll));
    if opts.reverse then Reverse(sorted) else sorted
  }

  /** The listing holds exactly the visible entries, in ascending order of
      name, or in descending order under `-r`. */
  lemma ArrangeOrder(entries: seq<DirEntry>, opts: LsOptions)
    ensures multiset(Arrange(entries, opts)) == multiset(Visible(entries, opts.showAll))
    ensures !opts.reverse ==> SortedByName(Arrange(entries, opts))
    ensures opts.reverse ==> forall i, j :: 0 <= i < j < |Arrange(entries, opts)| ==>
      NameLe(Arrange(entries, opts)[j].name, Arrange(entries, opts)[i].name)
  {
    var sorted := SortByName(Visible(entries, opts.showAll));
    SortByNameSorted(Visible(entries, opts.showAll));
    if opts.reverse {
      ReverseMultiset(sorted);
    }
  }

  lemma {:induction false} ReverseMultiset(s: seq<DirEntry>)
    ensures multiset(Reverse(s)) == multiset(s)
    decreases |s|
  {
    if |s| > 0 {
      ReverseMultiset(s[1..]);
      assert s == [s[0]] + s[1..];
    }
  }

  /* ---------------- how an entry is shown ---------------- */

  const ColorReset := "\U{1B}[0m"
  const ColorDir := "\U{1B}[1;34m"
  const ColorExec := "\U{1B}[1;32m"

  predicate EndsWith(s: string, suffix: string) {
    |suffix| <= |s| && s[|s| - |suffix|..] == suffix
  }

  /** Programs: WebAssembly modules and shell scripts. */
  predicate IsExecutable(name: string) {
    EndsWith(name, ".wasm") || EndsWith(name, ".sh")
  }

  /** The number of bytes of the UTF-8 encoding, which is what Rust's
      `String::len` counts. */
  function Utf8Length(s: string): (n: nat)
    ensures |s| <= n <= 4 * |s|
  {
    if |s| == 0 then 0
    else
      var c := s[0] as int;
      (if c < 0x80 then 1 else if c < 0x800 then 2 else if c < 0x10000 then 3 else 4) + Utf8Length(s[1..])
  }

  /** The colour and suffix: directories blue with a slash, programs green,
      anything else plain. */
  function Colored(e: DirEntry): (r: string)
    ensures e.isDir ==> r == ColorDir + e.name + "/" + ColorReset
    ensures !e.isDir && IsExecutable(e.name) ==> r == ColorExec + e.name + ColorReset
    ensures !e.isDir && !IsExecutable(e.name) ==> r == ColorReset + e.name + ColorReset
  {
    var (color, suffix) := if e.isDir then (ColorDir, "/") else if IsExecutable(e.name) then (ColorExec, "") else (ColorReset, "");
    color + e.name + suffix + ColorReset
  }

  /** The width of the shown name without its colour codes, in bytes. */
  function DisplayLength(e: DirEntry): (n: nat)
    ensures n == Utf8Length(e.name) + (if e.isDir then 1 else 0)
  {
    Utf8Length(e.name) + (if e.isDir then 1 else 0)
  }

  /** ASCII names are as wide as they are long; a directory's slash counts. */
  lemma DisplayExamples()
    ensures DisplayLength(DirEntry("bin", true, 0)) == 4
    ensures DisplayLength(DirEntry("ls.wasm", false, 0)) == 7
    ensures DisplayLength(DirEntry("été", false, 0)) == 5
  {
    assert Utf8Length("bin") == 3;
    assert Utf8Length("ls.wasm") == 7;
    assert Utf8Length("été") == 5;
  }

  /** Programs are recognised by their extension alone. */
  lemma ExecutableExamples()
    ensures IsExecutable("ls.wasm") && IsExecutable("run.sh") && !IsExecutable("notes.md")
  {
    assert "ls.wasm"[2..] == ".wasm";
    assert "run.sh"[3..] == ".sh";
    assert "notes.md"[3..] != ".wasm" by { assert "notes.md"[3..][4] != ".wasm"[4]; }
    assert "notes.md"[5..] != ".sh" by { assert "notes.md"[5..][1] != ".sh"[1]; }
  }

  /* ---------------- the three layouts ---------------- */

  const TerminalWidth := 80

  /** `format_size`: without `-h` the size right-aligned in eight columns,
      with `-h` the human-readable form `HumanSize`. */
  function FormatSize(size: nat, humanReadable: bool): (r: string)
    ensures !humanReadable ==> (|r| >= 8 && |r| >= |Decimal(size)| && r[|r| - |Decimal(size)|..] == Decimal(size) &&
      forall k :: 0 <= k < |r| - |Decimal(size)| ==> r[k] == ' ')
    ensures humanReadable ==> |r| >= 7 && r[|r| - 1] == Units[UnitIndex(size, 0)]
  {
    if !humanReadable then PadLeft(Decimal(size), 8) else HumanSize(size)
  }

  /** The units `-h` steps through, bytes first. */
  const Units: seq<char> := ['B', 'K', 'M', 'G', 'T']

  function Pow1024(k: nat): (p: nat)
    ensures p >= 1
  {
    if k == 0 then 1 else 1024 * Pow1024(k - 1)
  }

  /** How often the `-h` loop divides by 1024, counting on from `k`
      divisions: on while the quotient is still at least 1024 and a larger
      unit is left. Dividing a float by a power of two is exact, so the
      quotient is at least 1024 exactly when the size is at least 1024^(k+1). */
  function UnitIndex(size: nat, k: nat): (u: nat)
    requires k < |Units|
    ensures k <= u < |Units|
    ensures u > k ==> size >= Pow1024(u)
    ensures u < |Units| - 1 ==> size < 1024 * Pow1024(u)
    decreases |Units| - k
  {
    if k < |Units| - 1 && size >= 1024 * Pow1024(k) then UnitIndex(size, k + 1) else k
  }

  /** `{:.1}` of `size / d`, in tenths: the nearest tenth, an exact tie
      going to the even one. */
  function NearestTenths(size: nat, d: nat): (t: nat)
    requires d >= 1
    ensures var e := t * d - 10 * size; -(d as int) <= 2 * e <= d && (2 * e == d || 2 * e == -(d as int) ==> t % 2 == 0)
  {
    var n := 10 * size;
    var q, r := n / d, n % d;
    var t := if 2 * r < d then q else if 2 * r > d then q + 1 else if q % 2 == 0 then q else q + 1;
    TenthsError(n, d, q, r, t);
    t
  }

  /** Rounding `n / d` down or up to `t` misses by the remainder or by what
      the remainder lacks of `d`. */
  lemma TenthsError(n: nat, d: nat, q: nat, r: nat, t: nat)
    requires d >= 1 && q == n / d && r == n % d && (t == q || t == q + 1)
    ensures t * d - n == if t == q then -(r as int) else d - r
  {
    assert n == q * d + r;
    if t == q + 1 {
      assert t * d == q * d + d;
    }
  }

  /** The `-h` column: below 1 KiB the byte count right-aligned in seven
      columns and `B`; otherwise the size in the chosen unit to one decimal,
      right-aligned in six columns, and the unit's letter. */
  function HumanSize(size: nat): (r: string)
    ensures |r| >= 7 && r[|r| - 1] == Units[UnitIndex(size, 0)]
    ensures UnitIndex(size, 0) == 0 ==> size < 1024 && r[..|r| - 1] == PadLeft(Decimal(size), 7)
  {
    var u := UnitIndex(size, 0);
    if u == 0 then PadLeft(Decimal(size), 7) + [Units[0]]
    else
      var t := NearestTenths(size, Pow1024(u));
      PadLeft(Decimal(t / 10) + "." + [DigitChar(t % 10)], 6) + [Units[u]]
  }

  /** `format_size` as the source writes it, with its loop over the units. */
  method PrintSize(size: nat, humanReadable: bool) returns (r: string)
    ensures r == FormatSize(size, humanReadable)
  {
    if !humanReadable {
      return PadLeft(Decimal(size), 8);
    }
    var unit := 0;
    var scale := 1;
    while size >= 1024 * scale && unit < |Units| - 1
      invariant unit < |Units| && scale == Pow1024(unit)
      invariant UnitIndex(size, unit) == UnitIndex(size, 0)
      decreases |Units| - unit
    {
      scale := 1024 * scale;
      unit := unit + 1;
    }
    if unit == 0 {
      r := PadLeft(Decimal(size), 7) + [Units[0]];
    } else {
      var t := NearestTenths(size, scale);
      r := PadLeft(Decimal(t / 10) + "." + [DigitChar(t % 10)], 6) + [Units[unit]];
    }
  }

  /** The `-h` column reads back: the digits before the point and the one
      after it name the tenth nearest to the size in the unit shown, and that
      unit is the largest one the size reaches (bytes for sizes below 1 KiB). */
  lemma {:induction false} HumanSizeReads(size: nat)
    requires size >= 1024
    ensures var u := UnitIndex(size, 0); var t := NearestTenths(size, Pow1024(u));
      1 <= u && Pow1024(u) <= size && (u < |Units| - 1 ==> size < 1024 * Pow1024(u)) &&
      HumanSize(size) == PadLeft(Decimal(t / 10) + "." + [DigitChar(t % 10)], 6) + [Units[u]] &&
      -(Pow1024(u) as int) <= 2 * (t * Pow1024(u) - 10 * size) <= Pow1024(u)
  {
    assert Pow1024(1) == 1024;
    assert UnitIndex(size, 0) == UnitIndex(size, 1);
  }

  /** 1.25 KiB is an exact tie between two tenths: it rounds to the even
      one and shows as `1.2K`. */
  lemma HumanSizeTie()
    ensures HumanSize(1280) == "   1.2K"
  {
    hide UnitIndex, NearestTenths, Pow1024;
    TieSteps();
    assert Decimal(1) == "1" && DigitChar(2) == '2';
    assert PadLeft("1.2", 6) == "   1.2";
  }

  /** The unit and the tenths `-h` picks for 1280 bytes. */
  lemma TieSteps()
    ensures Pow1024(1) == 1024
    ensures UnitIndex(1280, 0) == 1
    ensures NearestTenths(1280, 1024) == 12
  {
    assert Pow1024(1) == 1024 && Pow1024(2) == 1048576;
  }



  /** `-l`: a line per entry with its size, a space and its shown name. */
  function LongLines(files: seq<DirEntry>, humanReadable: bool): string {
    if |files| == 0 then ""
    else
      var e := files[|files| - 1];
      LongLines(files[..|files| - 1], humanReadable) + FormatSize(e.size, humanReadable) + " " + Colored(e) + "\n"
  }

  /** `-1`: a line per entry. */
  function NameLines(files: seq<DirEntry>): string {
    if |files| == 0 then ""
    else NameLines(files[..|files| - 1]) + Colored(files[|files| - 1]) + "\n"
  }

  /** The widest shown name, 0 for none. */
  function MaxDisplayLength(files: seq<DirEntry>): (m: nat)
    ensures forall k :: 0 <= k < |files| ==> DisplayLength(files[k]) <= m
    ensures |files| > 0 ==> exists k :: 0 <= k < |files| && DisplayLength(files[k]) == m
    ensures |files| == 0 ==> m == 0
  {
    if |files| == 0 then 0
    else
      var rest := MaxDisplayLength(files[1..]);
      assert forall k :: 1 <= k < |files| ==> files[k] == files[1..][k - 1];
      if DisplayLength(files[0]) >= rest then DisplayLength(files[0]) else rest
  }

  /** How many columns of `width` the terminal takes, at least one. */
  function Columns(width: nat): (cols: nat)
    requires width > 0
    ensures cols >= 1
  {
    var fit := TerminalWidth / width;
    if fit >= 1 then fit else 1
  }

  /** Entry `i` of the grid: the name, then a line break after every
      `cols`-th entry and after the last, or else padding up to the column
      width. */
  function GridCell(files: seq<DirEntry>, i: nat, cols: nat, width: nat): string
    requires i < |files| && cols >= 1 && DisplayLength(files[i]) <= width
  {
    if (i + 1) % cols == 0 || i == |files| - 1 then Colored(files[i]) + "\n"
    else Colored(files[i]) + Repeat(' ', width - DisplayLength(files[i]))
  }

  /** The first `k` cells of the grid. */
  function GridPrefix(files: seq<DirEntry>, k: nat, cols: nat, width: nat): string
    requires k <= |files| && cols >= 1
    requires forall j :: 0 <= j < |files| ==> DisplayLength(files[j]) <= width
  {
    if k == 0 then "" else GridPrefix(files, k - 1, cols, width) + GridCell(files, k - 1, cols, width)
  }

  /** The grid: columns two wider than the widest name. */
  function Grid(files: seq<DirEntry>): string {
    var width := MaxDisplayLength(files) + 2;
    GridPrefix(files, |files|, Columns(width), width)
  }

  /** The listing of one directory's entries in the layout the options pick. */
  function Body(files: seq<DirEntry>, opts: LsOptions): string {
    if opts.longFormat then LongLines(files, opts.humanReadable)
    else if opts.onePerLine then NameLines(files)
    else Grid(files)
  }

  /* ---------------- one directory, and its subdirectories ---------------- */

  /** What `ls` printed and its exit code. */
  datatype Printed = Printed(stdout: string, stderr: string, exit: int)

  /** The header of a subdirectory's listing: its path from the directory
      `ls` started in. */
  function SubPrefix(prefix: string, name: string): (r: string)
    ensures |r| >= |name|
  {
    if prefix == "" then name else prefix + "/" + name
  }

  /** `list_dir`: an unreadable directory is an error; otherwise a header
      when there is a prefix, the entries, and under `-R` each subdirectory
      in turn after an empty line. Subdirectories are listed down to `fuel`
      levels. The exit code is the directory's own: errors below it are only
      printed. */
  function ListDir<F>(calls: FsCalls<F>, fs: F, path: string, opts: LsOptions, prefix: string, fuel: nat): (r: Printed)
    ensures r.exit == (if calls.readDir(fs, path).Err? then 1 else 0)
    ensures calls.readDir(fs, path).Err? ==>
      r.stdout == "" && r.stderr == "ls: " + path + ": " + calls.readDir(fs, path).error + "\n"
    ensures calls.readDir(fs, path).Ok? && prefix != "" ==>
      |r.stdout| >= |prefix| + 2 && r.stdout[..|prefix| + 2] == prefix + ":\n"
    decreases fuel, 1, 0
  {
    match calls.readDir(fs, path)
    case Err(e) => Printed("", "ls: " + path + ": " + e + "\n", 1)
    case Ok(entries) =>
      var files := Arrange(entries, opts);
      var header := if prefix == "" then "" else prefix + ":\n";
      var sub := if opts.recursive then Subdirectories(calls, fs, path, opts, prefix, files, fuel) else Printed("", "", 0);
      Printed(header + Body(files, opts) + sub.stdout, sub.stderr, 0)
  }

  /** The `-R` loop over the listed entries, as far as `files` goes. */
  function Subdirectories<F>(calls: FsCalls<F>, fs: F, path: string, opts: LsOptions, prefix: string,
                             files: seq<DirEntry>, fuel: nat): (r: Printed)
    ensures r.exit == 0
    decreases fuel, 0, |files|
  {
    if |files| == 0 then Printed("", "", 0)
    else
      var before := Subdirectories(calls, fs, path, opts, prefix, files[..|files| - 1], fuel);
      var f := files[|files| - 1];
      if !f.isDir || fuel == 0 then before
      else
        var sub := ListDir(calls, fs, Child(path, f.name), opts, SubPrefix(prefix, f.name), fuel - 1);
        Printed(before.stdout + ("\n" + sub.stdout), before.stderr + sub.stderr, 0)
  }

  /** `ls`: the arguments, then the named directory, or the working
      directory when none is named. */
  function Ls<F>(calls: FsCalls<F>, args: seq<string>, cwd: string, fs: F, fuel: nat): (r: Printed)
  {
    match ParseFrom(NoOptions, None, Operands(args))
    case InvalidOption(c) => Printed("", "ls: invalid option -- '" + [c] + "'\n" + Usage, 1)
    case HelpRequested => Printed(Help, "", 0)
    case Parsed(opts, target) =>
      var path := match target case None => cwd case Some(arg) => Resolve(cwd, arg);
      ListDir(calls, fs, path, opts, "", fuel)
  }

  /* ---------------- the printing loops ---------------- */

  /** `Ls::run`. */
  method RunLs<F>(calls: FsCalls<F>, args: seq<string>, cwd: string, fs: F, fuel: nat) returns (r: Printed)
    ensures r == Ls(calls, args, cwd, fs, fuel)
  {
    var parsed := ParseArgs(Operands(args));
    match parsed {
      case InvalidOption(c) =>
        r := Printed("", "ls: invalid option -- '" + [c] + "'\n" + Usage, 1);
      case HelpRequested =>
        r := Printed(Help, "", 0);
      case Parsed(opts, target) =>
        var path := match target case None => cwd case Some(arg) => Resolve(cwd, arg);
        r := RunListDir(calls, fs, path, opts, "", fuel);
    }
  }

  /** `list_dir`. */
  method RunListDir<F>(calls: FsCalls<F>, fs: F, path: string, opts: LsOptions, prefix: string, fuel: nat)
    returns (r: Printed)
    ensures r == ListDir(calls, fs, path, opts, prefix, fuel)
    decreases fuel, 1
  {
    hide Body, Arrange, Subdirectories;
    var read := calls.readDir(fs, path);
    if read.Err? {
      return Printed("", "ls: " + path + ": " + read.error + "\n", 1);
    }
    var files := Arrange(read.value, opts);
    var body := PrintBody(files, opts);
    var stdout := (if prefix == "" then "" else prefix + ":\n") + body;
    var sub := Printed("", "", 0);
    if opts.recursive {
      sub := ListSubdirectories(calls, fs, path, opts, prefix, files, fuel);
    }
    r := Printed(stdout + sub.stdout, sub.stderr, 0);
  }

  /** The `-R` loop of `list_dir`. */
  method ListSubdirectories<F>(calls: FsCalls<F>, fs: F, path: string, opts: LsOptions, prefix: string,
                               files: seq<DirEntry>, fuel: nat)
    returns (r: Printed)
    ensures r == Subdirectories(calls, fs, path, opts, prefix, files, fuel)
    decreases fuel, 0
  {
    hide ListDir, Child, SubPrefix;
    r := Printed("", "", 0);
    for i := 0 to |files|
      invariant r == Subdirectories(calls, fs, path, opts, prefix, files[..i], fuel)
    {
      assert files[..i + 1][..i] == files[..i];
      var f := files[i];
      if f.isDir && fuel > 0 {
        var sub := RunListDir(calls, fs, Child(path, f.name), opts, SubPrefix(prefix, f.name), fuel - 1);
        r := Printed(r.stdout + ("\n" + sub.stdout), r.stderr + sub.stderr, 0);
      }
    }
    assert files[..|files|] == files;
  }

  /** The entries in the layout the options pick. */
  method PrintBody(files: seq<DirEntry>, opts: LsOptions) returns (out: string)
    ensures out == Body(files, opts)
  {
    if opts.longFormat {
      out := PrintLong(files, opts.humanReadable);
    } else if opts.onePerLine {
      out := PrintNames(files);
    } else {
      out := PrintGrid(files);
    }
  }

  method PrintLong(files: seq<DirEntry>, humanReadable: bool) returns (out: string)
    ensures out == LongLines(files, humanReadable)
  {
    out := "";
    for i := 0 to |files|
      invariant out == LongLines(files[..i], humanReadable)
    {
      assert files[..i + 1][..i] == files[..i];
      var size := PrintSize(files[i].size, humanReadable);
      out := out + size + " " + Colored(files[i]) + "\n";
    }
    assert files[..|files|] == files;
  }

  method PrintNames(files: seq<DirEntry>) returns (out: string)
    ensures out == NameLines(files)
  {
    out := "";
    for i := 0 to |files|
      invariant out == NameLines(files[..i])
    {
      assert files[..i + 1][..i] == files[..i];
      out := out + Colored(files[i]) + "\n";
    }
    assert files[..|files|] == files;
  }

  method PrintGrid(files: seq<DirEntry>) returns (out: string)
    ensures out == Grid(files)
  {
    hide Colored, DisplayLength, Repeat, GridCell, GridPrefix, Grid;
    var width := MaxDisplayLength(files) + 2;
    var cols := Columns(width);
    GridPrefixEmpty(files, cols, width);
    out := "";
    for i := 0 to |files|
      invariant out == GridPrefix(files, i, cols, width)
    {
      var len := DisplayLength(files[i]);
      var breaks := (i + 1) % cols == 0 || i == |files| - 1;
      GridCellBreaks(files, i, cols, width, breaks);
      GridPrefixStep(files, i + 1, cols, width);
      if breaks {
        out := out + (Colored(files[i]) + "\n");
      } else {
        out := out + (Colored(files[i]) + Repeat(' ', width - len));
      }
    }
    GridIsPrefix(files, width, cols);
  }

  lemma GridPrefixStep(files: seq<DirEntry>, k: nat, cols: nat, width: nat)
    requires 0 < k <= |files| && cols >= 1
    requires forall j :: 0 <= j < |files| ==> DisplayLength(files[j]) <= width
    ensures GridPrefix(files, k, cols, width) == GridPrefix(files, k - 1, cols, width) + GridCell(files, k - 1, cols, width)
  {
  }

  lemma GridCellBreaks(files: seq<DirEntry>, i: nat, cols: nat, width: nat, breaks: bool)
    requires i < |files| && cols >= 1 && DisplayLength(files[i]) <= width
    requires breaks == ((i + 1) % cols == 0 || i == |files| - 1)
    ensures GridCell(files, i, cols, width) ==
      if breaks then Colored(files[i]) + "\n" else Colored(files[i]) + Repeat(' ', width - DisplayLength(files[i]))
  {
  }

  /* ---------------- what the layouts promise ---------------- */

  /** The number of line breaks in `s`. */
  function Newlines(s: string): (n: nat)
    ensures n <= |s|
    ensures '\n' !in s ==> n == 0
  {
    if |s| == 0 then 0
    else
      assert forall c :: c in s[..|s| - 1] ==> c in s;
      Newlines(s[..|s| - 1]) + (if s[|s| - 1] == '\n' then 1 else 0)
  }

  lemma {:induction false} NewlinesAppend(a: string, b: string)
    ensures Newlines(a + b) == Newlines(a) + Newlines(b)
    decreases |b|
  {
    if |b| > 0 {
      assert (a + b)[..|a + b| - 1] == a + b[..|b| - 1];
      assert (a + b)[|a + b| - 1] == b[|b| - 1];
      NewlinesAppend(a, b[..|b| - 1]);
    } else {
      assert a + b == a;
    }
  }

  /** A name without a line break is shown without one. */
  lemma ColoredOneLine(e: DirEntry)
    requires '\n' !in e.name
    ensures '\n' !in Colored(e)
  {
    assert '\n' !in ColorDir && '\n' !in ColorExec && '\n' !in ColorReset;
  }

  /** `-1` prints exactly one line per entry. */
  lemma {:induction false} NameLinesCount(files: seq<DirEntry>)
    requires forall k :: 0 <= k < |files| ==> '\n' !in files[k].name
    ensures Newlines(NameLines(files)) == |files|
    decreases |files|
  {
    if |files| > 0 {
      var init := files[..|files| - 1];
      NameLinesCount(init);
      ColoredOneLine(files[|files| - 1]);
      NewlinesAppend(NameLines(init), Colored(files[|files| - 1]));
      NewlinesAppend(NameLines(init) + Colored(files[|files| - 1]), "\n");
    }
  }

  /** `-l` prints exactly one line per entry, as long as the size column has
      no line break of its own (without `-h` it never has, see
      `SizeColumn`). */
  lemma {:induction false} LongLinesCount(files: seq<DirEntry>, humanReadable: bool)
    requires forall k :: 0 <= k < |files| ==> '\n' !in files[k].name
    requires forall k :: 0 <= k < |files| ==> '\n' !in FormatSize(files[k].size, humanReadable)
    ensures Newlines(LongLines(files, humanReadable)) == |files|
    decreases |files|
  {
    if |files| > 0 {
      var init := files[..|files| - 1];
      var e := files[|files| - 1];
      LongLinesCount(init, humanReadable);
      ColoredOneLine(e);
      var size := FormatSize(e.size, humanReadable);
      NewlinesAppend(LongLines(init, humanReadable), size);
      NewlinesAppend(LongLines(init, humanReadable) + size, " ");
      NewlinesAppend(LongLines(init, humanReadable) + size + " ", Colored(e));
      NewlinesAppend(LongLines(init, humanReadable) + size + " " + Colored(e), "\n");
    }
  }

  /** `10^k` */
  function Pow10(k: nat): (p: nat)
    ensures p >= 1
  {
    if k == 0 then 1 else 10 * Pow10(k - 1)
  }

  lemma {:induction false} DecimalFits(n: nat, k: nat)
    requires k >= 1 && n < Pow10(k)
    ensures |Decimal(n)| <= k
    decreases k
  {
    if n >= 10 {
      assert n / 10 < Pow10(k - 1);
      DecimalFits(n / 10, k - 1);
    }
  }

  /** Without `-h`, a size below 10^8 fills exactly eight columns: spaces,
      then its decimal digits, which read back as the size. */
  lemma SizeColumn(size: nat)
    requires size < 100000000
    ensures var r := FormatSize(size, false); var digits := |Decimal(size)|;
      digits <= 8 && |r| == 8 && (forall k :: 0 <= k < 8 - digits ==> r[k] == ' ') &&
      (forall k :: 8 - digits <= k < 8 ==> IsDigit(r[k])) && DigitsValue(r[8 - digits..]) == size && '\n' !in r
  {
    assert Pow10(8) == 100000000;
    DecimalFits(size, 8);
    DigitsValueDecimal(size);
    var r := FormatSize(size, false);
    var digits := |Decimal(size)|;
    forall k | 8 - digits <= k < 8 ensures IsDigit(r[k]) {
      assert r[k] == r[8 - digits..][k - (8 - digits)];
    }
  }

  /** The unique quotient and remainder of a division. */
  lemma DivUnique(a: int, d: int, q: int, r: int)
    requires d >= 1 && 0 <= r < d && a == q * d + r
    ensures a / d == q && a % d == r
  {
    var q2, r2 := a / d, a % d;
    assert a == q2 * d + r2 && 0 <= r2 < d;
    assert (q - q2) * d == r2 - r;
    if q > q2 {
      MulAtLeast(q - q2, d);
    } else if q < q2 {
      MulAtLeast(q2 - q, d);
    }
  }

  lemma MulAtLeast(x: int, d: int)
    requires x >= 1 && d >= 1
    ensures x * d >= d
  {
    assert x * d == (x - 1) * d + d;
  }

  /** One more cell adds a row exactly when it completes one. */
  lemma DivStep(k: nat, d: nat)
    requires d >= 1
    ensures (k + 1) / d == k / d + (if (k + 1) % d == 0 then 1 else 0)
  {
    var q, r := k / d, k % d;
    if r + 1 < d {
      DivUnique(k + 1, d, q, r + 1);
    } else {
      assert k + 1 == (q + 1) * d + 0;
      DivUnique(k + 1, d, q + 1, 0);
    }
  }

  /** Cells before the last break a line after every `cols`-th one. */
  lemma {:induction false} GridPrefixLines(files: seq<DirEntry>, k: nat, cols: nat, width: nat)
    requires k < |files| && cols >= 1
    requires forall j :: 0 <= j < |files| ==> DisplayLength(files[j]) <= width && '\n' !in files[j].name
    ensures Newlines(GridPrefix(files, k, cols, width)) == k / cols
    decreases k
  {
    hide Colored, GridCell, DisplayLength, GridPrefix, Repeat, Columns, Newlines;
    if k == 0 {
      GridPrefixEmpty(files, cols, width);
      assert Newlines("") == 0;
    } else {
      GridPrefixStep(files, k, cols, width);
      GridPrefixLines(files, k - 1, cols, width);
      GridCellLines(files, k - 1, cols, width);
      NewlinesAppend(GridPrefix(files, k - 1, cols, width), GridCell(files, k - 1, cols, width));
      DivStep(k - 1, cols);
    }
  }

  /** A cell holds a line break exactly when it ends a row. */
  lemma GridCellLines(files: seq<DirEntry>, i: nat, cols: nat, width: nat)
    requires i < |files| && cols >= 1
    requires DisplayLength(files[i]) <= width && '\n' !in files[i].name
    ensures Newlines(GridCell(files, i, cols, width)) == if (i + 1) % cols == 0 || i == |files| - 1 then 1 else 0
  {
    hide Colored, GridCell, DisplayLength, Repeat;
    ColoredOneLine(files[i]);
    var breaks := (i + 1) % cols == 0 || i == |files| - 1;
    GridCellBreaks(files, i, cols, width, breaks);
    if breaks {
      NewlinesAppend(Colored(files[i]), "\n");
    } else {
      var pad := Repeat(' ', width - DisplayLength(files[i]));
      assert '\n' !in Colored(files[i]) + pad;
    }
  }

  /** The grid has as many rows as it takes to hold the entries `cols` at a
      time, each ended by a line break; an empty directory prints nothing. */
  lemma GridRows(files: seq<DirEntry>, width: nat, cols: nat)
    requires width == MaxDisplayLength(files) + 2 && cols == Columns(width)
    requires forall j :: 0 <= j < |files| ==> '\n' !in files[j].name
    ensures Newlines(Grid(files)) == (|files| + cols - 1) / cols
  {
    hide Grid, GridPrefix, Columns, Newlines;
    GridIsPrefix(files, width, cols);
    GridLines(files, cols, width);
  }

  lemma GridIsPrefix(files: seq<DirEntry>, width: nat, cols: nat)
    requires width == MaxDisplayLength(files) + 2 && cols == Columns(width)
    ensures Grid(files) == GridPrefix(files, |files|, cols, width)
  {
  }

  lemma GridLines(files: seq<DirEntry>, cols: nat, width: nat)
    requires cols >= 1
    requires forall j :: 0 <= j < |files| ==> DisplayLength(files[j]) <= width && '\n' !in files[j].name
    ensures Newlines(GridPrefix(files, |files|, cols, width)) == (|files| + cols - 1) / cols
  {
    hide Colored, GridCell, DisplayLength, GridPrefix;
    var n := |files|;
    RowsCeiling(n, cols);
    if n == 0 {
      GridPrefixEmpty(files, cols, width);
      assert Newlines("") == 0;
    } else {
      GridLastLine(files, cols, width);
    }
  }

  lemma GridLastLine(files: seq<DirEntry>, cols: nat, width: nat)
    requires |files| > 0 && cols >= 1
    requires forall j :: 0 <= j < |files| ==> DisplayLength(files[j]) <= width && '\n' !in files[j].name
    ensures Newlines(GridPrefix(files, |files|, cols, width)) == (|files| - 1) / cols + 1
  {
    hide Colored, GridCell, DisplayLength, GridPrefix, Newlines;
    var n := |files|;
    GridPrefixLines(files, n - 1, cols, width);
    GridPrefixStep(files, n, cols, width);
    GridCellLines(files, n - 1, cols, width);
    NewlinesAppend(GridPrefix(files, n - 1, cols, width), GridCell(files, n - 1, cols, width));
  }

  lemma GridPrefixEmpty(files: seq<DirEntry>, cols: nat, width: nat)
    requires cols >= 1
    requires forall j :: 0 <= j < |files| ==> DisplayLength(files[j]) <= width
    ensures GridPrefix(files, 0, cols, width) == ""
  {
  }

  /** `n` entries fill `ceil(n / cols)` rows. */
  lemma RowsCeiling(n: nat, cols: nat)
    requires cols >= 1
    ensures n == 0 ==> (n + cols - 1) / cols == 0
    ensures n > 0 ==> (n + cols - 1) / cols == (n - 1) / cols + 1
  {
    if n == 0 {
      DivUnique(cols - 1, cols, 0, cols - 1);
    } else {
      var q, r := (n - 1) / cols, (n - 1) % cols;
      assert n + cols - 1 == (q + 1) * cols + r by {
        assert (q + 1) * cols == q * cols + cols;
      }
      DivUnique(n + cols - 1, cols, q + 1, r);
    }
  }

  /** A cell that does not end its row pads the name with spaces up to the
      column width, at least two of them. */
  lemma GridCellWidth(files: seq<DirEntry>, i: nat, width: nat, cols: nat)
    requires i < |files| && width == MaxDisplayLength(files) + 2 && cols == Columns(width)
    ensures width - DisplayLength(files[i]) >= 2
    ensures !((i + 1) % cols == 0 || i == |files| - 1) ==>
      GridCell(files, i, cols, width) == Colored(files[i]) + Repeat(' ', width - DisplayLength(files[i]))
  {
    GridCellBreaks(files, i, cols, width, (i + 1) % cols == 0 || i == |files| - 1);
  }

  /** As many columns as fit in the terminal width, and one when none
      fits. */
  lemma ColumnsFit(width: nat)
    requires width > 0
    ensures Columns(width) * width <= TerminalWidth || Columns(width) == 1
    ensures (Columns(width) + 1) * width > TerminalWidth
  {
    var fit := TerminalWidth / width;
    assert TerminalWidth == fit * width + TerminalWidth % width;
    assert (fit + 1) * width == fit * width + width;
    if fit == 0 {
      assert (Columns(width) + 1) * width == 2 * width;
    }
  }

  /* ---------------- what the listing promises ---------------- */

  /** Nested listings are headed by the path from the starting directory. */
  lemma SubPrefixExamples()
    ensures SubPrefix("", "src") == "src"
    ensures SubPrefix(SubPrefix("", "src"), "lib") == "src/lib"
  {
  }

  /** Without `-R`, or once the depth is used up, a readable directory is
      listed alone and nothing is reported. */
  lemma ListDirFlat<F>(calls: FsCalls<F>, fs: F, path: string, opts: LsOptions, prefix: string, fuel: nat)
    requires calls.readDir(fs, path).Ok?
    requires !opts.recursive || fuel == 0
    ensures var files := Arrange(calls.readDir(fs, path).value, opts);
      ListDir(calls, fs, path, opts, prefix, fuel) ==
        Printed((if prefix == "" then "" else prefix + ":\n") + Body(files, opts), "", 0)
  {
    if opts.recursive {
      NoSubdirectories(calls, fs, path, opts, prefix, Arrange(calls.readDir(fs, path).value, opts), fuel);
    }
  }

  /** Under `-R` only directories are descended into: entries that are all
      files, or a used-up depth, add nothing. */
  lemma {:induction false} NoSubdirectories<F>(calls: FsCalls<F>, fs: F, path: string, opts: LsOptions, prefix: string,
                                              files: seq<DirEntry>, fuel: nat)
    requires fuel == 0 || forall k :: 0 <= k < |files| ==> !files[k].isDir
    ensures Subdirectories(calls, fs, path, opts, prefix, files, fuel) == Printed("", "", 0)
    decreases |files|
  {
    if |files| > 0 {
      NoSubdirectories(calls, fs, path, opts, prefix, files[..|files| - 1], fuel);
    }
  }

  /** A subdirectory is listed after an empty line, under a header naming
      it, and what went wrong below it is reported without changing the exit
      code. */
  lemma SubdirectoryListed<F>(calls: FsCalls<F>, fs: F, path: string, opts: LsOptions, prefix: string,
                              files: seq<DirEntry>, fuel: nat)
    requires |files| > 0 && files[|files| - 1].isDir && fuel > 0
    requires calls.readDir(fs, Child(path, files[|files| - 1].name)).Ok?
    ensures var before := Subdirectories(calls, fs, path, opts, prefix, files[..|files| - 1], fuel);
      var name := files[|files| - 1].name;
      var sub := ListDir(calls, fs, Child(path, name), opts, SubPrefix(prefix, name), fuel - 1);
      var all := Subdirectories(calls, fs, path, opts, prefix, files, fuel);
      all.exit == 0 && all.stderr == before.stderr + sub.stderr &&
      all.stdout[..|before.stdout| + 1] == before.stdout + "\n" &&
      (name != "" ==> all.stdout[|before.stdout| + 1..][..|SubPrefix(prefix, name)| + 2] == SubPrefix(prefix, name) + ":\n")
  {
    hide ListDir, Body, Arrange, Child, SubPrefix;
    var name := files[|files| - 1].name;
    var before := Subdirectories(calls, fs, path, opts, prefix, files[..|files| - 1], fuel);
    var sub := ListDir(calls, fs, Child(path, name), opts, SubPrefix(prefix, name), fuel - 1);
    var all := Subdirectories(calls, fs, path, opts, prefix, files, fuel);
    assert all.stdout == before.stdout + ("\n" + sub.stdout);
    if name != "" {
      assert all.stdout[|before.stdout| + 1..] == sub.stdout;
    }
  }

  /** An unknown letter prints the usage and fails, and `--help` prints
      the help, whatever follows either. */
  lemma LsOptionErrors<F>(calls: FsCalls<F>, fs: F, fuel: nat)
    ensures Ls(calls, ["ls", "-lz", "docs"], "/home", fs, fuel) ==
      Printed("", "ls: invalid option -- 'z'\n" + Usage, 1)
    ensures Ls(calls, ["ls", "--help", "-z"], "/home", fs, fuel) == Printed(Help, "", 0)
  {
    assert Operands(["ls", "-lz", "docs"]) == ["-lz", "docs"];
    assert Operands(["ls", "--help", "-z"]) == ["--help", "-z"];
    assert "-lz"[1..] == ['l', 'z'] && ['l', 'z'][1..] == ['z'];
    assert IsCluster("-lz") && !IsCluster("--help");
  }

  /** Without an operand the working directory is listed. */
  lemma LsListsWorkingDirectory<F>(calls: FsCalls<F>, fs: F, fuel: nat)
    ensures Ls(calls, ["ls", "-a"], "/home", fs, fuel) ==
      ListDir(calls, fs, "/home", NoOptions.(showAll := true), "", fuel)
  {
    assert Operands(["ls", "-a"]) == ["-a"];
    assert "-a"[1..] == ['a'] && ['a'][1..] == [];
    assert ["-a"][1..] == [];
  }

  /** An operand is resolved against the working directory, and options
      after it still apply. */
  lemma LsResolvesOperand<F>(calls: FsCalls<F>, fs: F, fuel: nat)
    ensures Ls(calls, ["ls", "docs", "-R"], "/home/", fs, fuel) ==
      ListDir(calls, fs, "/home/docs", NoOptions.(recursive := true), "", fuel)
  {
    hide ListDir, Resolve;
    assert Operands(["ls", "docs", "-R"]) == ["docs", "-R"];
    OperandThenOption();
    ResolveUnderSlash();
  }

  lemma OperandThenOption()
    ensures ParseFrom(NoOptions, None, ["docs", "-R"]) == Parsed(NoOptions.(recursive := true), Some("docs"))
  {
    assert !IsCluster("docs") && "docs" != "--help";
    assert ["docs", "-R"][1..] == ["-R"] && ["-R"][1..] == [];
    assert "-R"[1..] == ['R'] && ['R'][1..] == [];
  }

  lemma ResolveUnderSlash()
    ensures Resolve("/home/", "docs") == "/home/docs"
  {
    assert TrimEndChar("/home/", '/') == "/home";
  }

  /** `ls` fails exactly on an unknown option or an unreadable directory. */
  lemma LsExit<F>(calls: FsCalls<F>, args: seq<string>, cwd: string, fs: F, fuel: nat)
    ensures var parsed := ParseFrom(NoOptions, None, Operands(args));
      var r := Ls(calls, args, cwd, fs, fuel);
      r.exit == (if parsed.InvalidOption? then 1
                 else if parsed.HelpRequested? then 0
                 else if calls.readDir(fs, match parsed.target case None => cwd case Some(a) => Resolve(cwd, a)).Err? then 1
                 else 0)
  {
  }
}
