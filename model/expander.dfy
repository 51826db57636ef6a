/** Variable expansion on the Rust side: every segment of a parsed word
    is replaced by its text and the pieces are joined. A variable that is
    set expands to its value (even an empty one), an unset one to its
    default or to nothing; command substitutions are left to the
    TypeScript side and expand to nothing here. */
module Expander {
  import opened Wrappers
  import opened OrderedMap
  import opened ShellAst
  import P = ShellParser

  /** The environment, a hash map from names to values. */
  type Env = map<string, string>

  /** What one variable reference stands for. */
  function Lookup(r: EnvRef, env: Env): (v: string)
    ensures r.name in env ==> v == env[r.name]
    ensures r.name !in env && r.default.Some? ==> v == r.default.value
    ensures r.name !in env && r.default.None? ==> v == ""
  {
    if r.name in env then env[r.name] else r.default.GetOr("")
  }

  function ExpandSegment(seg: WordSegment, env: Env): string {
    match seg
    case Literal(s) => s
    case EnvVar(r) => Lookup(r, env)
    case CommandSubst(_) => ""
  }

  /** The expansions of the segments, in order, joined without separator. */
  function ExpandSegments(segs: seq<WordSegment>, env: Env): string {
    if |segs| == 0 then "" else ExpandSegment(segs[0], env) + ExpandSegments(segs[1..], env)
  }

  /** `expand_word` */
  function ExpandWord(w: ParsedWord, env: Env): string {
    ExpandSegments(w.segments, env)
  }

  /** Expansion distributes over splitting a word anywhere: the segments
      are expanded independently and in order. */
  lemma {:induction false} ExpandAppend(a: seq<WordSegment>, b: seq<WordSegment>, env: Env)
    ensures ExpandSegments(a + b, env) == ExpandSegments(a, env) + ExpandSegments(b, env)
    decreases |a|
  {
    if |a| == 0 {
      assert a + b == b;
    } else {
      assert (a + b)[1..] == a[1..] + b;
      ExpandAppend(a[1..], b, env);
    }
  }

  /** Each segment contributes its own expansion, so a word of one
      segment expands to that segment's text. */
  lemma ExpandSingle(seg: WordSegment, env: Env)
    ensures ExpandSegments([seg], env) == ExpandSegment(seg, env)
  {
    assert [seg][1..] == [];
  }

  /** A literal word expands to its text whatever the environment. */
  lemma ExpandLiteral(s: string, env: Env)
    ensures ExpandWord(LiteralWord(s), env) == s
  {
    ExpandSingle(Literal(s), env);
  }

  /** The three cases of a variable reference, including a value that is
      set but empty, which is kept rather than replaced by the default. */
  lemma ExpandVariable(r: EnvRef, env: Env)
    ensures r.name in env ==> ExpandWord(ParsedWord([EnvVar(r)]), env) == env[r.name]
    ensures r.name !in env ==> ExpandWord(ParsedWord([EnvVar(r)]), env) == r.default.GetOr("")
  {
    ExpandSingle(EnvVar(r), env);
  }

  /** Command substitutions contribute nothing on this side. */
  lemma ExpandSubstitution(id: nat, env: Env)
    ensures ExpandWord(ParsedWord([CommandSubst(id)]), env) == ""
  {
    ExpandSingle(CommandSubst(id), env);
  }

  /** `Hello, $USER!` with `USER=world`. */
  lemma ExpandMixed()
    ensures ExpandWord(ParsedWord([Literal("Hello, "), EnvVar(EnvRef("USER", None)), Literal("!")]), map["USER" := "world"]) == "Hello, world!"
  {
    var env := map["USER" := "world"];
    var segs := [Literal("Hello, "), EnvVar(EnvRef("USER", None)), Literal("!")];
    assert segs[1..][1..][1..] == [];
    assert ExpandSegments(segs[1..][1..], env) == "!";
    assert ExpandSegments(segs[1..], env) == "world!";
  }

  /** The names a word refers to. */
  function VarsOf(segs: seq<WordSegment>): (names: set<string>)
    ensures forall k :: 0 <= k < |segs| && segs[k].EnvVar? ==> segs[k].ref.name in names
  {
    if |segs| == 0 then {}
    else (if segs[0].EnvVar? then {segs[0].ref.name} else {}) + VarsOf(segs[1..])
  }

  /** Only the variables a word mentions matter: two environments that
      agree on them expand it the same way. */
  lemma {:induction false} ExpandDependsOnlyOnVars(segs: seq<WordSegment>, env1: Env, env2: Env)
    requires forall n :: n in VarsOf(segs) ==> (n in env1 <==> n in env2) && (n in env1 ==> env1[n] == env2[n])
    ensures ExpandSegments(segs, env1) == ExpandSegments(segs, env2)
    decreases |segs|
  {
    if |segs| > 0 {
      ExpandDependsOnlyOnVars(segs[1..], env1, env2);
    }
  }

  /** Text without `$` parses to one literal and expands back to itself,
      so parsing and expansion are the identity on plain words. */
  lemma PlainWordExpandsToItself(s: string, id: nat, env: Env)
    requires '$' !in s
    ensures ExpandWord(P.WordOf(s, id).0, env) == s
  {
    P.WordWithoutDollar(s, id);
    ExpandLiteral(s, env);
  }

  /** `$NAME` parsed and expanded is the value of NAME, or nothing. */
  lemma VariableWordExpands(name: string, id: nat, env: Env)
    requires |name| > 0 && forall k :: 0 <= k < |name| ==> P.IsNameChar(name[k])
    ensures ExpandWord(P.WordOf("$" + name, id).0, env) == if name in env then env[name] else ""
  {
    P.WordVariable(name, id);
    ExpandVariable(EnvRef(name, None), env);
  }

  /** `${NAME:-default}` parsed and expanded is the value of NAME when it
      is set, even to the empty string, and the default otherwise. */
  lemma DefaultWordExpands(name: string, default: string, id: nat, env: Env)
    requires '}' !in name && ':' !in name && '}' !in default
    ensures ExpandWord(P.WordOf("${" + name + ":-" + default + "}", id).0, env) == if name in env then env[name] else default
  {
    P.WordBracedDefault(name, default, id);
    ExpandVariable(EnvRef(name, Some(default)), env);
  }

  /** `env_list_to_map`: the pairs are inserted in order, so a later pair
      for the same name replaces an earlier one. */
  function EnvListToMap(pairs: seq<(string, string)>): (m: Env)
    ensures m.Keys == set k | 0 <= k < |pairs| :: pairs[k].0
  {
    if |pairs| == 0 then map[]
    else
      var m := EnvListToMap(pairs[..|pairs| - 1]);
      var last := pairs[|pairs| - 1];
      assert forall k :: 0 <= k < |pairs| - 1 ==> pairs[..|pairs| - 1][k] == pairs[k];
      m[last.0 := last.1]
  }

  /** The value of each name is the one of its last pair. */
  lemma {:induction false} EnvListLastWins(pairs: seq<(string, string)>, i: nat)
    requires i < |pairs|
    requires forall j :: i < j < |pairs| ==> pairs[j].0 != pairs[i].0
    ensures pairs[i].0 in EnvListToMap(pairs) && EnvListToMap(pairs)[pairs[i].0] == pairs[i].1
    decreases |pairs|
  {
    if i < |pairs| - 1 {
      var init := pairs[..|pairs| - 1];
      assert init[i] == pairs[i];
      EnvListLastWins(init, i);
    }
  }

  /** A duplicate definition: `A=1` then `A=2` leaves `A=2`. */
  lemma EnvListDuplicate(name: string, first: string, second: string)
    ensures EnvListToMap([(name, first), (name, second)]) == map[name := second]
  {
    assert [(name, first), (name, second)][..1] == [(name, first)];
    assert [(name, first)][..0] == [];
  }

  /** With distinct names, the map holds exactly the listed names, each
      with its listed value. */
  lemma EnvListAgrees(pairs: seq<(string, string)>)
    requires DistinctKeys(pairs)
    ensures forall k :: k in EnvListToMap(pairs) <==> Has(pairs, k)
    ensures forall k :: Has(pairs, k) ==> EnvListToMap(pairs)[k] == Get(pairs, k).value
  {
    forall k | Has(pairs, k)
      ensures k in EnvListToMap(pairs) && EnvListToMap(pairs)[k] == Get(pairs, k).value
    {
      var i :| 0 <= i < |pairs| && pairs[i] == (k, Get(pairs, k).value);
      EnvListLastWins(pairs, i);
    }
  }
}
