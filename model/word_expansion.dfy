/** Word expansion on the TypeScript side, applied to the words of a
    parse result once the command substitutions have run: tilde expansion
    on the first literal, variables looked up in the shell environment
    (a set but empty value is kept), and each substitution replaced by its
    captured output. */
module WordExpansion {
  import opened Wrappers
  import opened OrderedMap
  import opened ShellAst
  import E = Expander

  /** The shell environment, a JavaScript `Map` from names to values. */
  type Env = Entries<string, string>

  /** The home directory used when `HOME` is unset. */
  const DefaultHome := "/home/uzimaru0000"

  /** `expandTilde`: `~` alone is HOME, a leading `~/` is HOME followed by
      the rest of the path, anything else is left alone. */
  function ExpandTilde(value: string, home: string): (r: string)
    ensures |value| == 0 || value[0] != '~' ==> r == value
  {
    if value == "~" then home
    else if |value| >= 2 && value[..2] == "~/" then home + value[1..]
    else value
  }

  /** `~/p` becomes HOME + `/p`, and `~user` (or any other `~x`) is not
      expanded. */
  lemma TildeCases(p: string, home: string, c: char)
    requires c != '/'
    ensures ExpandTilde("~", home) == home
    ensures ExpandTilde("~/" + p, home) == home + "/" + p
    ensures ExpandTilde(['~', c] + p, home) == ['~', c] + p
  {
    assert ("~/" + p)[..2] == "~/";
    assert ("~/" + p)[1..] == "/" + p;
    assert (['~', c] + p)[..2] == ['~', c];
  }

  /** The home directory an expansion uses. */
  function Home(env: Env): (h: string)
    ensures Has(env, "HOME") ==> h == Get(env, "HOME").value
    ensures !Has(env, "HOME") ==> h == DefaultHome
  {
    Get(env, "HOME").GetOr(DefaultHome)
  }

  /** One segment away from the head of the word: literals are kept as they
      are, variables take their value whenever set, then the default, then
      nothing, and substitutions their captured output or nothing. */
  function ExpandSegment(seg: WordSegment, env: Env, subs: map<nat, string>): string {
    match seg
    case Literal(s) => s
    case EnvVar(r) => if Has(env, r.name) then Get(env, r.name).value else r.default.GetOr("")
    case CommandSubst(id) => if id in subs then subs[id] else ""
  }

  function ExpandRest(segs: seq<WordSegment>, env: Env, subs: map<nat, string>): string {
    if |segs| == 0 then "" else ExpandSegment(segs[0], env, subs) + ExpandRest(segs[1..], env, subs)
  }

  /** `expandWord`: the first segment, tilde-expanded when it is a literal,
      followed by the rest, joined without separator. */
  function ExpandWord(w: ParsedWord, env: Env, subs: map<nat, string>): string {
    if |w.segments| == 0 then ""
    else
      var first := w.segments[0];
      (if first.Literal? then ExpandTilde(first.text, Home(env)) else ExpandSegment(first, env, subs))
      + ExpandRest(w.segments[1..], env, subs)
  }

  /** The segments after the first are expanded independently and in order. */
  lemma {:induction false} ExpandRestAppend(a: seq<WordSegment>, b: seq<WordSegment>, env: Env, subs: map<nat, string>)
    ensures ExpandRest(a + b, env, subs) == ExpandRest(a, env, subs) + ExpandRest(b, env, subs)
    decreases |a|
  {
    if |a| == 0 {
      assert a + b == b;
    } else {
      assert (a + b)[1..] == a[1..] + b;
      ExpandRestAppend(a[1..], b, env, subs);
    }
  }

  /** `~` with HOME unset expands to the built-in home directory. */
  lemma TildeWithoutHome(env: Env, subs: map<nat, string>)
    requires !Has(env, "HOME")
    ensures ExpandWord(LiteralWord("~"), env, subs) == DefaultHome
  {
  }

  /** Tilde expansion applies to the head of the word only: a literal `~`
      after another segment stays as it is. */
  lemma TildeOnlyAtHead(head: WordSegment, env: Env, subs: map<nat, string>)
    requires !head.Literal? || |head.text| == 0 || head.text[0] != '~'
    ensures ExpandWord(ParsedWord([head, Literal("~")]), env, subs) == ExpandSegment(head, env, subs) + "~"
  {
    assert [head, Literal("~")][1..] == [Literal("~")];
    assert [Literal("~")][1..] == [];
    assert ExpandRest([Literal("~")], env, subs) == "~";
  }

  /** A variable that is set expands to its value even when that value is
      empty, so the default of `${X:-d}` is used only when X is unset. */
  lemma SetButEmptyKeepsEmpty(name: string, default: string, env: Env, subs: map<nat, string>)
    requires Get(env, name) == Some("")
    ensures ExpandWord(ParsedWord([EnvVar(EnvRef(name, Some(default)))]), env, subs) == ""
  {
    assert [EnvVar(EnvRef(name, Some(default)))][1..] == [];
  }

  /** A substitution whose id has no captured output expands to nothing;
      one with output expands to that output. */
  lemma SubstitutionOutput(id: nat, env: Env, subs: map<nat, string>)
    ensures ExpandWord(ParsedWord([CommandSubst(id)]), env, subs) == if id in subs then subs[id] else ""
  {
    assert [CommandSubst(id)][1..] == [];
  }

  /** No tilde at the head and no substitutions: the TypeScript expansion
      and the Rust one give the same text. */
  predicate NoSubstitution(segs: seq<WordSegment>) {
    forall k :: 0 <= k < |segs| ==> !segs[k].CommandSubst?
  }

  lemma {:induction false} RestAgreesWithRust(segs: seq<WordSegment>, env: Env, subs: map<nat, string>)
    requires NoSubstitution(segs) && DistinctKeys(env)
    ensures ExpandRest(segs, env, subs) == E.ExpandSegments(segs, E.EnvListToMap(env))
    decreases |segs|
  {
    if |segs| > 0 {
      E.EnvListAgrees(env);
      RestAgreesWithRust(segs[1..], env, subs);
    }
  }

  /** The environment handed to a command is the list of the shell's
      variables, which `env_list_to_map` turns back into a map. */
  lemma AgreesWithRust(w: ParsedWord, env: Env, subs: map<nat, string>)
    requires NoSubstitution(w.segments) && DistinctKeys(env)
    requires |w.segments| > 0 && w.segments[0].Literal? ==> |w.segments[0].text| == 0 || w.segments[0].text[0] != '~'
    ensures ExpandWord(w, env, subs) == E.ExpandWord(w, E.EnvListToMap(env))
  {
    if |w.segments| > 0 {
      E.EnvListAgrees(env);
      RestAgreesWithRust(w.segments[1..], env, subs);
    }
  }
}
