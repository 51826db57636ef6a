/** The `echo` command: its arguments after the command name, joined by
    single spaces, then a newline. */
module EchoCommand {
  import opened Text
  import opened CommandCore

  /** The line `echo` prints; it always exits 0. */
  function Echo(args: seq<string>): (out: string)
    ensures |out| >= 1 && out[|out| - 1] == '\n'
  {
    Join(Operands(args), " ") + "\n"
  }

  /** Without operands the output is an empty line. */
  lemma EchoNothing(name: string)
    ensures Echo([name]) == "\n"
    ensures Echo([]) == "\n"
  {
  }

  /** Options are not read: `-n` is printed like any other word and the
      newline is still written. */
  lemma EchoPrintsFlags()
    ensures Echo(["echo", "-n", "hi"]) == "-n hi\n"
  {
    assert ["echo", "-n", "hi"][1..] == ["-n", "hi"];
    assert ["-n", "hi"][1..] == ["hi"];
  }

  /** Cutting the line at its spaces gives back the operands, when none of
      them holds a space: nothing is added, dropped or reordered. */
  lemma {:induction false} EchoSplitsBack(args: seq<string>)
    requires |args| >= 2
    requires forall k :: 1 <= k < |args| ==> ' ' !in args[k]
    ensures var out := Echo(args); Split(out[..|out| - 1], ' ') == args[1..]
  {
    var ops := args[1..];
    var out := Echo(args);
    assert out[..|out| - 1] == Join(ops, " ");
    SplitJoin(ops, ' ');
  }
}
