/** The in-memory filesystem of the site (src/filesystem/index.ts): a tree of
    directories and files rooted at `/`, addressed by slash-separated paths,
    whose operations report failures as values with four error tags.

    A node mirrors `FileSystemNode`: every node has a name, a type, a
    content and a child map (`content` and `children` are optional in the
    source, and every reader treats a missing one as empty). The child map
    is a JavaScript `Map` from name to node, kept in insertion order. */
module VirtualFs {
  import opened Wrappers
  import opened Text
  import opened OrderedMap
  import ContentLoader

  datatype NodeType = File | Directory

  datatype Node = Node(name: string, kind: NodeType, content: Bytes, children: Entries<string, Node>)

  datatype FsError = NotFound | PermissionDenied | IsDirectory | IsFile

  datatype FileEntry = FileEntry(name: string, isDir: bool)

  datatype FileStat = FileStat(name: string, isDir: bool, size: nat)

  function CreateDirectory(name: string): Node {
    Node(name, Directory, [], [])
  }

  function CreateFile(name: string, content: Bytes): Node {
    Node(name, File, content, [])
  }

  // ---- Path normalisation ----------------------------------------------

  /** The segments `normalizePath` keeps from `path.split('/')`: all but `''` and `.`. */
  function Segments(parts: seq<string>): (r: seq<string>)
    ensures forall k :: 0 <= k < |r| ==> r[k] != "" && r[k] != "."
  {
    if |parts| == 0 then []
    else if parts[0] == "" || parts[0] == "." then Segments(parts[1..])
    else [parts[0]] + Segments(parts[1..])
  }

  /** One step of the normalisation loop: `..` pops (nothing at the root), anything else is pushed. */
  function Step(acc: seq<string>, part: string): seq<string> {
    if part == ".." then (if |acc| == 0 then acc else acc[..|acc| - 1]) else acc + [part]
  }

  function Fold(acc: seq<string>, parts: seq<string>): seq<string>
    decreases |parts|
  {
    if |parts| == 0 then acc else Fold(Step(acc, parts[0]), parts[1..])
  }

  /** The components `normalizePath(path)` returns. */
  function Normalized(path: string): seq<string> {
    Fold([], Segments(Split(path, '/')))
  }

  /** A canonical path: no empty, `.` or `..` component, and no slash inside a component. */
  predicate Canonical(parts: seq<string>) {
    forall k :: 0 <= k < |parts| ==> parts[k] != "" && parts[k] != "." && parts[k] != ".." && '/' !in parts[k]
  }

  /** `normalizePath` */
  method NormalizePath(path: string) returns (result: seq<string>)
    ensures result == Normalized(path)
  {
    var parts := Segments(Split(path, '/'));
    result := [];
    var i := 0;
    while i < |parts|
      invariant 0 <= i <= |parts|
      invariant Fold(result, parts[i..]) == Normalized(path)
    {
      if parts[i] == ".." {
        if |result| > 0 {
          result := result[..|result| - 1];
        }
      } else {
        result := result + [parts[i]];
      }
      assert parts[i..][1..] == parts[i + 1..];
      i := i + 1;
    }
  }

  /** Dropping `''` and `.` works piece by piece. */
  lemma {:induction false} SegmentsAppend(a: seq<string>, b: seq<string>)
    ensures Segments(a + b) == Segments(a) + Segments(b)
    decreases |a|
  {
    if |a| == 0 {
      assert a + b == b;
    } else {
      SegmentsAppend(a[1..], b);
      assert (a + b)[0] == a[0] && (a + b)[1..] == a[1..] + b;
    }
  }

  /** The normalisation loop can be resumed: folding `a + b` folds `a`, then `b`. */
  lemma {:induction false} FoldAppend(acc: seq<string>, a: seq<string>, b: seq<string>)
    ensures Fold(acc, a + b) == Fold(Fold(acc, a), b)
    decreases |a|
  {
    if |a| == 0 {
      assert a + b == b;
    } else {
      FoldAppend(Step(acc, a[0]), a[1..], b);
      assert (a + b)[0] == a[0] && (a + b)[1..] == a[1..] + b;
    }
  }

  /** Normalising yields a canonical path. */
  lemma {:induction false} FoldCanonical(acc: seq<string>, parts: seq<string>)
    requires Canonical(acc)
    requires forall k :: 0 <= k < |parts| ==> parts[k] != "" && parts[k] != "." && '/' !in parts[k]
    ensures Canonical(Fold(acc, parts))
    decreases |parts|
  {
    if |parts| > 0 {
      FoldCanonical(Step(acc, parts[0]), parts[1..]);
    }
  }

  lemma NormalizedCanonical(path: string)
    ensures Canonical(Normalized(path))
  {
    var pieces := Split(path, '/');
    SplitPiecesAvoidSeparator(path, '/');
    SegmentsAvoid(pieces);
    FoldCanonical([], Segments(pieces));
  }

  lemma {:induction false} SegmentsAvoid(parts: seq<string>)
    requires forall k :: 0 <= k < |parts| ==> '/' !in parts[k]
    ensures forall k :: 0 <= k < |Segments(parts)| ==> '/' !in Segments(parts)[k]
  {
    if |parts| > 0 {
      SegmentsAvoid(parts[1..]);
    }
  }

  /** Folding a canonical sequence pushes every component. */
  lemma {:induction false} FoldCanonicalPushes(acc: seq<string>, parts: seq<string>)
    requires Canonical(parts)
    ensures Fold(acc, parts) == acc + parts
    decreases |parts|
  {
    if |parts| > 0 {
      FoldCanonicalPushes(acc + [parts[0]], parts[1..]);
      assert acc + [parts[0]] + parts[1..] == acc + parts;
    }
  }

  /** A `..` at the root is absorbed: `/..` and `/` name the same node. */
  lemma DotDotAtRoot(parts: seq<string>)
    ensures Fold([], [".."] + parts) == Fold([], parts)
  {
    assert ([".."] + parts)[1..] == parts;
  }

  /** Writing a canonical path out with slashes and normalising it again gives it back. */
  lemma NormalizeJoined(parts: seq<string>)
    requires Canonical(parts)
    ensures Normalized("/" + Join(parts, "/")) == parts
  {
    var s := "/" + Join(parts, "/");
    SplitJoined(parts);
    assert Split(s, '/') == [""] + (if |parts| == 0 then [""] else parts) by {
      assert s[0] == '/' && s[1..] == Join(parts, "/");
    }
    SegmentsKeepsCanonical(if |parts| == 0 then [""] else parts);
    FoldCanonicalPushes([], parts);
  }

  lemma {:induction false} SegmentsKeepsCanonical(parts: seq<string>)
    requires parts == [""] || Canonical(parts)
    ensures Segments([""] + parts) == if parts == [""] then [] else parts
  {
    if parts != [""] {
      assert ([""] + parts)[1..] == parts;
      SegmentsCanonical(parts);
    } else {
      assert ([""] + parts)[1..] == [""];
      assert Segments([""]) == Segments([""][1..]);
    }
  }

  lemma {:induction false} SegmentsCanonical(parts: seq<string>)
    requires Canonical(parts)
    ensures Segments(parts) == parts
  {
    if |parts| > 0 {
      SegmentsCanonical(parts[1..]);
    }
  }

  /** Splitting a slash-joined sequence of slash-free, non-empty pieces gives them back. */
  lemma {:induction false} SplitJoined(parts: seq<string>)
    requires Canonical(parts)
    ensures Split(Join(parts, "/"), '/') == if |parts| == 0 then [""] else parts
    decreases |parts|
  {
    if |parts| == 1 {
      SplitWithoutSeparator(parts[0], '/');
    } else if |parts| > 1 {
      SplitJoined(parts[1..]);
      SplitConcat(parts[0], Join(parts[1..], "/"));
    }
  }

  /** Splitting `a + "/" + b` where `a` has no slash. */
  lemma {:induction false} SplitConcat(a: string, b: string)
    requires '/' !in a
    ensures Split(a + "/" + b, '/') == [a] + Split(b, '/')
    decreases |a|
  {
    if |a| == 0 {
      assert ("" + "/" + b)[1..] == b;
    } else {
      SplitConcat(a[1..], b);
      assert (a + "/" + b)[1..] == a[1..] + "/" + b;
      assert [a[0]] + a[1..] == a;
    }
  }

  // ---- Lookup ------------------------------------------------------------

  /** `resolve`: follow the components from `n`; every node passed through must be a directory that has the next component. */
  function Lookup(n: Node, parts: seq<string>): (r: Option<Node>)
    decreases |parts|
  {
    if |parts| == 0 then Some(n)
    else if n.kind != Directory then None
    else match Get(n.children, parts[0])
      case None => None
      case Some(c) => Lookup(c, parts[1..])
  }

  /** The walk of the internal operations: `children?.has(part)` without a type check. */
  function Walk(n: Node, parts: seq<string>): Option<Node>
    decreases |parts|
  {
    if |parts| == 0 then Some(n)
    else match Get(n.children, parts[0])
      case None => None
      case Some(c) => Walk(c, parts[1..])
  }

  lemma {:induction false} LookupIsWalk(n: Node, parts: seq<string>)
    requires Lookup(n, parts).Some?
    ensures Walk(n, parts) == Lookup(n, parts)
    decreases |parts|
  {
    if |parts| > 0 {
      LookupIsWalk(Get(n.children, parts[0]).value, parts[1..]);
    }
  }

  /** Resolving `a + b` is resolving `b` from wherever `a` leads. */
  lemma {:induction false} LookupAppend(n: Node, a: seq<string>, b: seq<string>)
    requires Lookup(n, a).Some?
    ensures Lookup(n, a + b) == Lookup(Lookup(n, a).value, b)
    decreases |a|
  {
    if |a| > 0 {
      assert (a + b)[0] == a[0] && (a + b)[1..] == a[1..] + b;
      var c := Get(n.children, a[0]).value;
      assert Lookup(n, a) == Lookup(c, a[1..]);
      assert Lookup(n, a + b) == Lookup(c, a[1..] + b);
      LookupAppend(c, a[1..], b);
    } else {
      assert a + b == b;
    }
  }

  /** The walk along `parts` reaches component `k` and is stopped there: the
      node reached is a file, or has no entry named `parts[k]`. */
  predicate BlockedAt(n: Node, parts: seq<string>, k: nat)
    requires k < |parts|
  {
    Lookup(n, parts[..k]).Some? &&
    (Lookup(n, parts[..k]).value.kind == File || !Has(Lookup(n, parts[..k]).value.children, parts[k]))
  }

  /** Resolution fails exactly when some component along the path is missing or passes through a file. */
  lemma {:induction false} LookupFails(n: Node, parts: seq<string>)
    ensures Lookup(n, parts).None? <==> exists k :: 0 <= k < |parts| && BlockedAt(n, parts, k)
    decreases |parts|
  {
    if |parts| > 0 {
      assert parts[..0] == [];
      if n.kind == Directory && Has(n.children, parts[0]) {
        var c := Get(n.children, parts[0]).value;
        LookupFails(c, parts[1..]);
        forall k | 1 <= k <= |parts| ensures Lookup(n, parts[..k]) == Lookup(c, parts[1..][..k - 1]) {
          assert parts[..k] == [parts[0]] + parts[1..][..k - 1];
          LookupAppend(n, [parts[0]], parts[1..][..k - 1]);
        }
        if Lookup(n, parts).None? {
          var j :| 0 <= j < |parts| - 1 && BlockedAt(c, parts[1..], j);
          assert BlockedAt(n, parts, j + 1);
        }
        if exists k :: 0 <= k < |parts| && BlockedAt(n, parts, k) {
          var k :| 0 <= k < |parts| && BlockedAt(n, parts, k);
          assert k > 0;
          assert BlockedAt(c, parts[1..], k - 1);
        }
      } else {
        assert BlockedAt(n, parts, 0);
      }
    }
  }

  /** The name, type and content of a resolved node, leaving out its children. */
  function Header(o: Option<Node>): Option<(string, NodeType, Bytes)> {
    match o
    case None => None
    case Some(n) => Some((n.name, n.kind, n.content))
  }

  // ---- Tree invariant ----------------------------------------------------

  /** Every child map has distinct keys and files every child under its own name. */
  predicate WellFormed(n: Node) {
    DistinctKeys(n.children) &&
    forall e :: e in n.children ==> e.0 == e.1.name && WellFormed(e.1)
  }

  lemma GetWellFormed(n: Node, k: string)
    requires WellFormed(n) && Get(n.children, k).Some?
    ensures WellFormed(Get(n.children, k).value) && Get(n.children, k).value.name == k
  {
    var i :| 0 <= i < |n.children| && n.children[i] == (k, Get(n.children, k).value);
    assert n.children[i] in n.children;
  }

  /** Setting a well-formed child under its own name keeps the node well formed. */
  lemma SetWellFormed(n: Node, c: Node)
    requires WellFormed(n) && WellFormed(c)
    ensures WellFormed(n.(children := Set(n.children, c.name, c)))
  {
    SetDistinct(n.children, c.name, c);
  }

  lemma DeleteWellFormed(n: Node, k: string)
    requires WellFormed(n)
    ensures WellFormed(n.(children := Delete(n.children, k)))
  {
  }

  // ---- Rebuilding a path -------------------------------------------------

  /** The tree with the node that `Walk(n, dir)` reaches replaced by `m`: the
      value-level counterpart of updating that node in place. */
  function ReplaceAt(n: Node, dir: seq<string>, m: Node): (r: Node)
    requires Walk(n, dir).Some?
    ensures |dir| > 0 ==> r.name == n.name && r.kind == n.kind && r.content == n.content
    decreases |dir|
  {
    if |dir| == 0 then m
    else
      var c := Get(n.children, dir[0]).value;
      n.(children := Set(n.children, dir[0], ReplaceAt(c, dir[1..], m)))
  }

  /** Replacing the node at `dir` changes no other node: paths that extend
      `dir` now lead into `m`, the nodes on the way to `dir` keep their name,
      type and content, and every other path resolves as before. */
  lemma {:induction false} ReplaceAtLookup(n: Node, dir: seq<string>, m: Node, q: seq<string>)
    requires Walk(n, dir).Some?
    ensures Lookup(n, dir).Some? && dir <= q ==> Lookup(ReplaceAt(n, dir, m), q) == Lookup(m, q[|dir|..])
    ensures q < dir ==> Header(Lookup(ReplaceAt(n, dir, m), q)) == Header(Lookup(n, q))
    ensures !(dir <= q) && !(q <= dir) ==> Lookup(ReplaceAt(n, dir, m), q) == Lookup(n, q)
    decreases |dir|
  {
    if |dir| > 0 && |q| > 0 {
      var c := Get(n.children, dir[0]).value;
      ReplaceAtFirst(n, dir, m, q);
      PrefixByHead(dir, q);
      if q[0] == dir[0] {
        hide *;
        ReplaceAtLookup(c, dir[1..], m, q[1..]);
      }
    }
  }

  /** One level of `ReplaceAt`: under the first component of `dir` the
      replacement goes on in that child, and every other child is kept. */
  lemma ReplaceAtFirst(n: Node, dir: seq<string>, m: Node, q: seq<string>)
    requires |dir| > 0 && |q| > 0 && Walk(n, dir).Some?
    ensures Walk(Get(n.children, dir[0]).value, dir[1..]).Some?
    ensures Lookup(n, dir).Some? ==> Lookup(Get(n.children, dir[0]).value, dir[1..]) == Lookup(n, dir)
    ensures q[0] == dir[0] ==>
              Lookup(ReplaceAt(n, dir, m), q) ==
                (if n.kind == Directory then Lookup(ReplaceAt(Get(n.children, dir[0]).value, dir[1..], m), q[1..]) else None) &&
              Lookup(n, q) == (if n.kind == Directory then Lookup(Get(n.children, dir[0]).value, q[1..]) else None)
    ensures q[0] != dir[0] ==> Lookup(ReplaceAt(n, dir, m), q) == Lookup(n, q)
  {
    var n' := ReplaceAt(n, dir, m);
    if q[0] != dir[0] {
      assert Get(n'.children, q[0]) == Get(n.children, q[0]);
    }
  }

  /** Prefixes of two non-empty paths, compared one component down. */
  lemma PrefixByHead(dir: seq<string>, q: seq<string>)
    requires |dir| > 0 && |q| > 0
    ensures q[0] != dir[0] ==> !(dir <= q) && !(q <= dir)
    ensures q[0] == dir[0] ==>
              ((dir <= q) <==> (dir[1..] <= q[1..])) &&
              ((q < dir) <==> (q[1..] < dir[1..])) &&
              ((q <= dir) <==> (q[1..] <= dir[1..])) &&
              (dir <= q ==> q[|dir|..] == q[1..][|dir| - 1..])
  {
    if q[0] == dir[0] {
      assert (dir <= q) <==> (dir[1..] <= q[1..]);
      assert (q < dir) <==> (q[1..] < dir[1..]);
      assert (q <= dir) <==> (q[1..] <= dir[1..]);
    }
  }

  lemma {:induction false} ReplaceAtWellFormed(n: Node, dir: seq<string>, m: Node)
    requires Walk(n, dir).Some? && WellFormed(n) && WellFormed(m)
    requires m.name == Walk(n, dir).value.name
    ensures WellFormed(ReplaceAt(n, dir, m)) && ReplaceAt(n, dir, m).name == n.name
    decreases |dir|
  {
    if |dir| > 0 {
      var c := Get(n.children, dir[0]).value;
      GetWellFormed(n, dir[0]);
      ReplaceAtWellFormed(c, dir[1..], m);
      SetWellFormed(n, ReplaceAt(c, dir[1..], m));
    }
  }

  /** The directory `parent` with its entry `name` set (`o == Some(x)`) or deleted (`o == None`). */
  function ChangeEntry(parent: Node, name: string, o: Option<Node>): (r: Node)
    ensures r.name == parent.name && r.kind == parent.kind && r.content == parent.content
  {
    match o
    case Some(x) => parent.(children := Set(parent.children, name, x))
    case None => parent.(children := Delete(parent.children, name))
  }

  /** In the changed directory, `name` leads to `o` and every other name to what it led to before. */
  lemma ChangeEntryLookup(parent: Node, name: string, o: Option<Node>, x: string, rest: seq<string>)
    requires parent.kind == Directory
    ensures x == name ==> Lookup(ChangeEntry(parent, name, o), [x] + rest) == (if o.None? then None else Lookup(o.value, rest))
    ensures x != name ==> Lookup(ChangeEntry(parent, name, o), [x] + rest) == Lookup(parent, [x] + rest)
  {
    var p' := ChangeEntry(parent, name, o);
    assert ([x] + rest)[0] == x && ([x] + rest)[1..] == rest;
    if x != name {
      assert Get(p'.children, x) == Get(parent.children, x);
    }
  }

  /** Set or delete the entry `name` of the directory at `dir`. */
  function SetEntry(root: Node, dir: seq<string>, name: string, o: Option<Node>): Node
    requires Lookup(root, dir).Some?
  {
    LookupIsWalk(root, dir);
    ReplaceAt(root, dir, ChangeEntry(Lookup(root, dir).value, name, o))
  }

  /** The changed directory itself is the old one with the entry set or deleted. */
  lemma SetEntryHere(root: Node, dir: seq<string>, name: string, o: Option<Node>)
    requires Lookup(root, dir).Some?
    ensures Lookup(SetEntry(root, dir, name, o), dir) == Some(ChangeEntry(Lookup(root, dir).value, name, o))
  {
    LookupIsWalk(root, dir);
    ReplaceAtLookup(root, dir, ChangeEntry(Lookup(root, dir).value, name, o), dir);
    assert dir[|dir|..] == [];
  }

  /** Below the changed entry the tree is the new node's, or nothing. */
  lemma SetEntryBelow(root: Node, dir: seq<string>, name: string, o: Option<Node>, rest: seq<string>)
    requires Lookup(root, dir).Some? && Lookup(root, dir).value.kind == Directory
    ensures Lookup(SetEntry(root, dir, name, o), dir + [name] + rest) == (if o.None? then None else Lookup(o.value, rest))
  {
    hide *;
    SetEntryIs(root, dir, name, o);
    var parent := Lookup(root, dir).value;
    var q := dir + [name] + rest;
    EntryPath(dir, name, rest);
    ReplaceAtLookup(root, dir, ChangeEntry(parent, name, o), q);
    ChangeEntryLookup(parent, name, o, name, rest);
  }

  /** The path of something below the entry `name` of `dir`, seen from `dir`. */
  lemma EntryPath(dir: seq<string>, name: string, rest: seq<string>)
    ensures dir <= dir + [name] + rest && (dir + [name] + rest)[|dir|..] == [name] + rest
  {
  }

  /** Changing one entry of a directory changes nothing else: the directories
      on the way keep their name, type and content, and every path that
      neither leads to nor passes through the entry resolves as before. */
  lemma SetEntryElsewhere(root: Node, dir: seq<string>, name: string, o: Option<Node>, q: seq<string>)
    requires Lookup(root, dir).Some? && Lookup(root, dir).value.kind == Directory
    ensures q < dir + [name] ==> Header(Lookup(SetEntry(root, dir, name, o), q)) == Header(Lookup(root, q))
    ensures !(dir + [name] <= q) && !(q < dir + [name]) ==> Lookup(SetEntry(root, dir, name, o), q) == Lookup(root, q)
  {
    LookupIsWalk(root, dir);
    var p' := ChangeEntry(Lookup(root, dir).value, name, o);
    assert SetEntry(root, dir, name, o) == ReplaceAt(root, dir, p');
    PrefixOfEntry(dir, name, q);
    hide *;
    if dir <= q && |q| > |dir| {
      if q[|dir|] != name {
        SetEntryBesideEntry(root, dir, name, o, q);
      }
    } else if dir == q {
      SetEntryHere(root, dir, name, o);
      HeaderOf(Lookup(root, dir).value);
      HeaderOf(p');
    } else {
      ReplaceAtLookup(root, dir, p', q);
    }
  }

  lemma HeaderOf(n: Node)
    ensures Header(Some(n)) == Some((n.name, n.kind, n.content))
  {
  }

  /** A path through another entry of the changed directory resolves as before. */
  lemma SetEntryBesideEntry(root: Node, dir: seq<string>, name: string, o: Option<Node>, q: seq<string>)
    requires Lookup(root, dir).Some? && Lookup(root, dir).value.kind == Directory
    requires dir <= q && |q| > |dir| && q[|dir|] != name
    ensures Lookup(SetEntry(root, dir, name, o), q) == Lookup(root, q)
  {
    hide *;
    SetEntryIs(root, dir, name, o);
    TailSplit(dir, q);
    var parent := Lookup(root, dir).value;
    var tail := q[|dir|..];
    ReplaceAtLookup(root, dir, ChangeEntry(parent, name, o), q);
    ChangeEntryLookup(parent, name, o, q[|dir|], tail[1..]);
    LookupAppend(root, dir, tail);
  }

  lemma SetEntryIs(root: Node, dir: seq<string>, name: string, o: Option<Node>)
    requires Lookup(root, dir).Some?
    ensures Walk(root, dir).Some?
    ensures SetEntry(root, dir, name, o) == ReplaceAt(root, dir, ChangeEntry(Lookup(root, dir).value, name, o))
  {
    LookupIsWalk(root, dir);
  }

  /** A path that extends `dir` is `dir`, the next component, and the rest. */
  lemma TailSplit(dir: seq<string>, q: seq<string>)
    requires dir <= q && |q| > |dir|
    ensures q == dir + q[|dir|..] && q[|dir|..] == [q[|dir|]] + q[|dir|..][1..]
  {
  }

  lemma LookupNil(n: Node)
    ensures Lookup(n, []) == Some(n)
  {
  }

  /** How a path compares with the path of the entry `name` of `dir`. */
  lemma PrefixOfEntry(dir: seq<string>, name: string, q: seq<string>)
    ensures q < dir + [name] <==> q < dir || q == dir
    ensures dir <= q && |q| > |dir| ==> (dir + [name] <= q <==> q[|dir|] == name)
    ensures !(dir <= q) && !(q < dir + [name]) ==> !(dir <= q) && !(q <= dir)
  {
    if dir <= q && |q| > |dir| {
      if q[|dir|] == name {
        assert q[..|dir| + 1] == dir + [name];
      }
    }
  }

  lemma SetEntryWellFormed(root: Node, dir: seq<string>, name: string, o: Option<Node>)
    requires WellFormed(root) && Lookup(root, dir).Some?
    requires o.Some? ==> WellFormed(o.value) && o.value.name == name
    ensures WellFormed(SetEntry(root, dir, name, o))
    ensures SetEntry(root, dir, name, o).kind == root.kind
  {
    LookupIsWalk(root, dir);
    var parent := Lookup(root, dir).value;
    WalkWellFormed(root, dir);
    if o.Some? {
      SetWellFormed(parent, o.value);
    } else {
      DeleteWellFormed(parent, name);
    }
    ReplaceAtWellFormed(root, dir, ChangeEntry(parent, name, o));
  }

  lemma {:induction false} WalkWellFormed(n: Node, dir: seq<string>)
    requires WellFormed(n) && Walk(n, dir).Some?
    ensures WellFormed(Walk(n, dir).value)
    decreases |dir|
  {
    if |dir| > 0 {
      GetWellFormed(n, dir[0]);
      WalkWellFormed(Get(n.children, dir[0]).value, dir[1..]);
    }
  }

  // ---- The public operations, on values ------------------------------------

  function Init(parts: seq<string>): seq<string>
    requires |parts| > 0
  {
    parts[..|parts| - 1]
  }

  function Last(parts: seq<string>): string
    requires |parts| > 0
  {
    parts[|parts| - 1]
  }

  /** `writeFile` on components: the new tree, or the error (the tree is then unchanged). */
  function WriteFileTree(root: Node, parts: seq<string>, data: Bytes): Result<Node, FsError> {
    if |parts| == 0 then Err(PermissionDenied)
    else match Lookup(root, Init(parts))
      case None => Err(NotFound)
      case Some(parent) =>
        if parent.kind != Directory then Err(IsFile)
        else if Get(parent.children, Last(parts)).Some? && Get(parent.children, Last(parts)).value.kind == Directory then Err(IsDirectory)
        else Ok(SetEntry(root, Init(parts), Last(parts), Some(CreateFile(Last(parts), data))))
  }

  /** `mkdir` on components. */
  function MkdirTree(root: Node, parts: seq<string>): Result<Node, FsError> {
    if |parts| == 0 then Err(PermissionDenied)
    else match Lookup(root, Init(parts))
      case None => Err(NotFound)
      case Some(parent) =>
        if parent.kind != Directory then Err(IsFile)
        else if Has(parent.children, Last(parts)) then Err(PermissionDenied)
        else Ok(SetEntry(root, Init(parts), Last(parts), Some(CreateDirectory(Last(parts)))))
  }

  /** `remove` on components. */
  function RemoveTree(root: Node, parts: seq<string>): Result<Node, FsError> {
    if |parts| == 0 then Err(PermissionDenied)
    else match Lookup(root, Init(parts))
      case None => Err(NotFound)
      case Some(parent) =>
        if parent.kind != Directory || !Has(parent.children, Last(parts)) then Err(NotFound)
        else Ok(SetEntry(root, Init(parts), Last(parts), None))
  }

  /** `listDir` on components. */
  function ListDirOf(root: Node, parts: seq<string>): Result<seq<FileEntry>, FsError> {
    match Lookup(root, parts)
    case None => Err(NotFound)
    case Some(n) => if n.kind != Directory then Err(IsFile) else Ok(EntriesOf(n.children))
  }

  function EntriesOf(children: Entries<string, Node>): (r: seq<FileEntry>)
    ensures |r| == |children|
    ensures forall i :: 0 <= i < |r| ==> r[i] == FileEntry(children[i].0, children[i].1.kind == Directory)
  {
    if |children| == 0 then [] else [FileEntry(children[0].0, children[0].1.kind == Directory)] + EntriesOf(children[1..])
  }

  /** `readFile` on components. */
  function ReadFileOf(root: Node, parts: seq<string>): Result<Bytes, FsError> {
    match Lookup(root, parts)
    case None => Err(NotFound)
    case Some(n) => if n.kind != File then Err(IsDirectory) else Ok(n.content)
  }

  /** `stat` on components. */
  function StatOf(root: Node, parts: seq<string>): Result<FileStat, FsError> {
    match Lookup(root, parts)
    case None => Err(NotFound)
    case Some(n) => Ok(FileStat(n.name, n.kind == Directory, if n.kind == File then |n.content| else 0))
  }

  // ---- Properties of the operations ----------------------------------------

  /** `writeFile` error precedence: the root is refused, then a missing parent,
      then a parent that is a file, then an existing directory at the name;
      every other write succeeds. */
  lemma WriteFileErrors(root: Node, parts: seq<string>, data: Bytes)
    ensures WriteFileTree(root, parts, data) == Err(PermissionDenied) <==> parts == []
    ensures WriteFileTree(root, parts, data) == Err(NotFound) <==> parts != [] && Lookup(root, Init(parts)).None?
    ensures WriteFileTree(root, parts, data) == Err(IsFile) <==>
      parts != [] && Lookup(root, Init(parts)).Some? && Lookup(root, Init(parts)).value.kind == File
    ensures WriteFileTree(root, parts, data) == Err(IsDirectory) <==>
      parts != [] && Lookup(root, Init(parts)).Some? && Lookup(root, Init(parts)).value.kind == Directory &&
      Lookup(root, parts).Some? && Lookup(root, parts).value.kind == Directory
  {
    hide Lookup, SetEntry;
    if parts != [] {
      ChildLookup(root, parts);
    }
  }

  /** `SetEntry` at the parent of `parts`, seen from any path `q`. */
  lemma SetEntryAt(root: Node, parts: seq<string>, o: Option<Node>, q: seq<string>)
    requires |parts| > 0 && Lookup(root, Init(parts)).Some? && Lookup(root, Init(parts)).value.kind == Directory
    ensures parts <= q ==>
      Lookup(SetEntry(root, Init(parts), Last(parts), o), q) == (if o.None? then None else Lookup(o.value, q[|parts|..]))
    ensures q < parts ==> Header(Lookup(SetEntry(root, Init(parts), Last(parts), o), q)) == Header(Lookup(root, q))
    ensures !(parts <= q) && !(q < parts) ==> Lookup(SetEntry(root, Init(parts), Last(parts), o), q) == Lookup(root, q)
  {
    assert parts == Init(parts) + [Last(parts)];
    if parts <= q {
      assert q == Init(parts) + [Last(parts)] + q[|parts|..];
      SetEntryBelow(root, Init(parts), Last(parts), o, q[|parts|..]);
    } else {
      SetEntryElsewhere(root, Init(parts), Last(parts), o, q);
    }
  }

  /** A successful `writeFile` puts the file at the path and changes no other entry. */
  lemma WriteFileOnlyTarget(root: Node, parts: seq<string>, data: Bytes, q: seq<string>)
    requires WriteFileTree(root, parts, data).Ok?
    ensures Lookup(WriteFileTree(root, parts, data).value, parts) == Some(CreateFile(Last(parts), data))
    ensures parts < q ==> Lookup(WriteFileTree(root, parts, data).value, q) == None
    ensures q < parts ==> Header(Lookup(WriteFileTree(root, parts, data).value, q)) == Header(Lookup(root, q))
    ensures !(parts <= q) && !(q < parts) ==> Lookup(WriteFileTree(root, parts, data).value, q) == Lookup(root, q)
  {
    var f := CreateFile(Last(parts), data);
    assert WriteFileTree(root, parts, data).value == SetEntry(root, Init(parts), Last(parts), Some(f));
    SetEntryAt(root, parts, Some(f), q);
    SetEntryAt(root, parts, Some(f), parts);
    assert parts[|parts|..] == [];
  }

  /** `mkdir` refuses the root and any existing name, reports a missing parent, and otherwise adds one empty directory. */
  lemma MkdirErrors(root: Node, parts: seq<string>)
    ensures MkdirTree(root, parts) == Err(NotFound) <==> parts != [] && Lookup(root, Init(parts)).None?
    ensures MkdirTree(root, parts) == Err(PermissionDenied) <==>
      parts == [] || (Lookup(root, Init(parts)).Some? && Lookup(root, Init(parts)).value.kind == Directory && Lookup(root, parts).Some?)
    ensures MkdirTree(root, parts) == Err(IsFile) <==>
      parts != [] && Lookup(root, Init(parts)).Some? && Lookup(root, Init(parts)).value.kind == File
    ensures MkdirTree(root, parts).Ok? <==>
      parts != [] && Lookup(root, Init(parts)).Some? && Lookup(root, Init(parts)).value.kind == Directory && Lookup(root, parts).None?
  {
    hide Lookup, SetEntry;
    if parts != [] {
      ChildLookup(root, parts);
    }
  }

  lemma MkdirOnlyTarget(root: Node, parts: seq<string>, q: seq<string>)
    requires MkdirTree(root, parts).Ok?
    ensures Lookup(MkdirTree(root, parts).value, parts) == Some(CreateDirectory(Last(parts)))
    ensures parts < q ==> Lookup(MkdirTree(root, parts).value, q) == None
    ensures q < parts ==> Header(Lookup(MkdirTree(root, parts).value, q)) == Header(Lookup(root, q))
    ensures !(parts <= q) && !(q < parts) ==> Lookup(MkdirTree(root, parts).value, q) == Lookup(root, q)
  {
    var d := CreateDirectory(Last(parts));
    assert MkdirTree(root, parts).value == SetEntry(root, Init(parts), Last(parts), Some(d));
    SetEntryAt(root, parts, Some(d), q);
    SetEntryAt(root, parts, Some(d), parts);
    assert parts[|parts|..] == [];
    if parts < q {
      assert q[|parts|..] != [];
    }
  }

  /** `remove` refuses the root, reports a missing entry, and otherwise deletes the entry with its whole subtree, whatever it holds. */
  lemma RemoveErrors(root: Node, parts: seq<string>)
    ensures RemoveTree(root, parts) == Err(PermissionDenied) <==> parts == []
    ensures RemoveTree(root, parts) == Err(NotFound) <==> parts != [] && Lookup(root, parts).None?
    ensures RemoveTree(root, parts).Ok? <==> parts != [] && Lookup(root, parts).Some?
  {
    hide Lookup, SetEntry;
    if parts != [] {
      ChildLookup(root, parts);
    }
  }

  lemma {:induction false} LookupPrefixFails(n: Node, a: seq<string>, b: seq<string>)
    requires Lookup(n, a).None?
    ensures Lookup(n, a + b).None?
    decreases |a|
  {
    if |a| > 0 {
      assert (a + b)[0] == a[0] && (a + b)[1..] == a[1..] + b;
      if n.kind == Directory && Get(n.children, a[0]).Some? {
        LookupPrefixFails(Get(n.children, a[0]).value, a[1..], b);
      }
    }
  }

  lemma RemoveOnlyTarget(root: Node, parts: seq<string>, q: seq<string>)
    requires RemoveTree(root, parts).Ok?
    ensures parts <= q ==> Lookup(RemoveTree(root, parts).value, q) == None
    ensures q < parts ==> Header(Lookup(RemoveTree(root, parts).value, q)) == Header(Lookup(root, q))
    ensures !(parts <= q) && !(q < parts) ==> Lookup(RemoveTree(root, parts).value, q) == Lookup(root, q)
  {
    assert RemoveTree(root, parts).value == SetEntry(root, Init(parts), Last(parts), None);
    SetEntryAt(root, parts, None, q);
  }

  /** `readFile` and `listDir` report a missing path as `not-found` and the wrong kind of node as `is-directory` / `is-file`. */
  lemma ReadAndListErrors(root: Node, parts: seq<string>)
    ensures ReadFileOf(root, parts) == Err(NotFound) <==> Lookup(root, parts).None?
    ensures ReadFileOf(root, parts) == Err(IsDirectory) <==> Lookup(root, parts).Some? && Lookup(root, parts).value.kind == Directory
    ensures ListDirOf(root, parts) == Err(NotFound) <==> Lookup(root, parts).None?
    ensures ListDirOf(root, parts) == Err(IsFile) <==> Lookup(root, parts).Some? && Lookup(root, parts).value.kind == File
  {
  }

  /** Overwriting an existing file always succeeds. */
  lemma WriteFileOverFile(root: Node, parts: seq<string>, data: Bytes)
    requires root.kind == Directory
    requires Lookup(root, parts).Some? && Lookup(root, parts).value.kind == File
    ensures WriteFileTree(root, parts, data).Ok?
  {
    hide Lookup, SetEntry;
    LookupNil(root);
    ChildLookup(root, parts);
  }

  /** After a write, reading the path gives the bytes written. */
  lemma ReadAfterWrite(root: Node, parts: seq<string>, data: Bytes)
    requires WriteFileTree(root, parts, data).Ok?
    ensures ReadFileOf(WriteFileTree(root, parts, data).value, parts) == Ok(data)
  {
    WriteFileOnlyTarget(root, parts, data, parts);
  }

  /** A write keeps the position of an existing entry in its directory listing. */
  lemma WriteKeepsListingOrder(root: Node, parts: seq<string>, data: Bytes)
    requires WriteFileTree(root, parts, data).Ok?
    requires Lookup(root, parts).Some?
    ensures ListDirOf(WriteFileTree(root, parts, data).value, Init(parts)).Ok?
    ensures ListDirOf(root, Init(parts)).Ok?
    ensures |ListDirOf(WriteFileTree(root, parts, data).value, Init(parts)).value| == |ListDirOf(root, Init(parts)).value|
    ensures forall i :: 0 <= i < |ListDirOf(root, Init(parts)).value| ==>
      ListDirOf(WriteFileTree(root, parts, data).value, Init(parts)).value[i].name == ListDirOf(root, Init(parts)).value[i].name
  {
    WriteFileTreeOk(root, parts, data);
    var dir, name := Init(parts), Last(parts);
    var parent := Lookup(root, dir).value;
    var f := CreateFile(name, data);
    hide *;
    LookupOneMore(root, dir, name);
    SetEntryHere(root, dir, name, Some(f));
    ListDirOfDirectory(root, dir);
    ListDirOfDirectory(WriteFileTree(root, parts, data).value, dir);
  }

  /** What a successful `writeFile` was given, and the tree it builds. */
  lemma WriteFileTreeOk(root: Node, parts: seq<string>, data: Bytes)
    requires WriteFileTree(root, parts, data).Ok?
    ensures |parts| > 0 && parts == Init(parts) + [Last(parts)]
    ensures Lookup(root, Init(parts)).Some? && Lookup(root, Init(parts)).value.kind == Directory
    ensures WriteFileTree(root, parts, data).value == SetEntry(root, Init(parts), Last(parts), Some(CreateFile(Last(parts), data)))
  {
    hide Lookup, SetEntry, Get;
    if |parts| > 0 {
      InitLast(parts);
    }
  }

  lemma InitLast(parts: seq<string>)
    requires |parts| > 0
    ensures parts == Init(parts) + [Last(parts)]
  {
  }

  /** A path resolves exactly when its parent is a directory holding its last component. */
  lemma ChildLookup(root: Node, parts: seq<string>)
    requires |parts| > 0
    ensures parts == Init(parts) + [Last(parts)]
    ensures Lookup(root, parts).Some? <==>
              Lookup(root, Init(parts)).Some? && Lookup(root, Init(parts)).value.kind == Directory &&
              Has(Lookup(root, Init(parts)).value.children, Last(parts))
    ensures Lookup(root, parts).Some? ==> Lookup(root, parts) == Get(Lookup(root, Init(parts)).value.children, Last(parts))
  {
    InitLast(parts);
    if Lookup(root, Init(parts)).Some? {
      LookupAppend(root, Init(parts), [Last(parts)]);
      assert [Last(parts)][0] == Last(parts) && [Last(parts)][1..] == [];
    } else {
      LookupPrefixFails(root, Init(parts), [Last(parts)]);
    }
  }

  /** A path one component longer resolves to that entry of the directory. */
  lemma LookupOneMore(root: Node, dir: seq<string>, name: string)
    requires Lookup(root, dir).Some?
    ensures Lookup(root, dir + [name]).Some? <==>
              Lookup(root, dir).value.kind == Directory && Has(Lookup(root, dir).value.children, name)
  {
    LookupAppend(root, dir, [name]);
    assert [name][0] == name && [name][1..] == [];
  }

  /** `listDir` of a directory lists its entries. */
  lemma ListDirOfDirectory(root: Node, parts: seq<string>)
    ensures Lookup(root, parts).Some? && Lookup(root, parts).value.kind == Directory ==>
              ListDirOf(root, parts) == Ok(EntriesOf(Lookup(root, parts).value.children))
  {
  }

  /** Every operation keeps the tree invariant. */
  lemma OperationsKeepWellFormed(root: Node, parts: seq<string>, data: Bytes)
    requires WellFormed(root)
    ensures WriteFileTree(root, parts, data).Ok? ==> WellFormed(WriteFileTree(root, parts, data).value) && WriteFileTree(root, parts, data).value.kind == root.kind
    ensures MkdirTree(root, parts).Ok? ==> WellFormed(MkdirTree(root, parts).value) && MkdirTree(root, parts).value.kind == root.kind
    ensures RemoveTree(root, parts).Ok? ==> WellFormed(RemoveTree(root, parts).value) && RemoveTree(root, parts).value.kind == root.kind
  {
    if parts != [] && Lookup(root, Init(parts)).Some? {
      TreeOperationsAre(root, parts, data);
      hide WriteFileTree, MkdirTree, RemoveTree, SetEntry, Lookup;
      SetEntryWellFormed(root, Init(parts), Last(parts), Some(CreateFile(Last(parts), data)));
      SetEntryWellFormed(root, Init(parts), Last(parts), Some(CreateDirectory(Last(parts))));
      SetEntryWellFormed(root, Init(parts), Last(parts), None);
    }
  }

  /** The tree each successful operation builds. */
  lemma TreeOperationsAre(root: Node, parts: seq<string>, data: Bytes)
    requires parts != [] && Lookup(root, Init(parts)).Some?
    ensures WriteFileTree(root, parts, data).Ok? ==>
              WriteFileTree(root, parts, data).value == SetEntry(root, Init(parts), Last(parts), Some(CreateFile(Last(parts), data)))
    ensures MkdirTree(root, parts).Ok? ==>
              MkdirTree(root, parts).value == SetEntry(root, Init(parts), Last(parts), Some(CreateDirectory(Last(parts))))
    ensures RemoveTree(root, parts).Ok? ==> RemoveTree(root, parts).value == SetEntry(root, Init(parts), Last(parts), None)
  {
  }

  /** `stat`: a file's size is its byte length, a directory's is 0, and `isDir` follows the node type. */
  lemma StatFacts(root: Node, parts: seq<string>)
    ensures StatOf(root, parts).Err? <==> Lookup(root, parts).None?
    ensures StatOf(root, parts).Ok? ==>
      var n := Lookup(root, parts).value;
      StatOf(root, parts).value.isDir == (n.kind == Directory) &&
      StatOf(root, parts).value.size == (if n.kind == File then |n.content| else 0)
  {
  }

  // ---- The internal operations used at construction ------------------------

  /** `mkdirInternal`: walk the components, creating a directory for every
      missing one, even below a file (the source does not check the type). */
  function MkdirAll(n: Node, parts: seq<string>): (r: Node)
    ensures r.name == n.name && r.kind == n.kind && r.content == n.content
    decreases |parts|
  {
    if |parts| == 0 then n
    else
      var c := match Get(n.children, parts[0]) case Some(c) => c case None => CreateDirectory(parts[0]);
      n.(children := Set(n.children, parts[0], MkdirAll(c, parts[1..])))
  }

  /** `writeFileInternal`: write the file if every directory component exists
      (by a walk that does not check types), otherwise do nothing. */
  function WriteInternal(root: Node, parts: seq<string>, content: Bytes): Node {
    if |parts| == 0 then root
    else match Walk(root, Init(parts))
      case None => root
      case Some(parent) =>
        ReplaceAt(root, Init(parts), parent.(children := Set(parent.children, Last(parts), CreateFile(Last(parts), content))))
  }

  /** Internal mkdir never changes an existing node, beyond adding children. */
  lemma {:induction false} MkdirAllKeepsExisting(n: Node, parts: seq<string>, q: seq<string>)
    requires Lookup(n, q).Some?
    ensures Header(Lookup(MkdirAll(n, parts), q)) == Header(Lookup(n, q))
    decreases |q|
  {
    if |parts| > 0 && |q| > 0 {
      var c := Get(n.children, q[0]).value;
      if q[0] == parts[0] {
        MkdirAllKeepsExisting(c, parts[1..], q[1..]);
      } else {
        assert Get(MkdirAll(n, parts).children, q[0]) == Get(n.children, q[0]);
      }
    }
  }

  /** No node is a file. */
  predicate AllDirectories(n: Node) {
    n.kind == Directory && forall e :: e in n.children ==> AllDirectories(e.1)
  }

  lemma GetAllDirectories(n: Node, k: string)
    requires AllDirectories(n) && Get(n.children, k).Some?
    ensures AllDirectories(Get(n.children, k).value)
  {
    var i :| 0 <= i < |n.children| && n.children[i] == (k, Get(n.children, k).value);
    assert n.children[i] in n.children;
  }

  /** On a tree of directories, internal mkdir keeps every node a directory and makes the whole path resolve. */
  lemma {:induction false} MkdirAllCreatesPath(n: Node, parts: seq<string>)
    requires AllDirectories(n)
    ensures AllDirectories(MkdirAll(n, parts))
    ensures Lookup(MkdirAll(n, parts), parts).Some?
    decreases |parts|
  {
    if |parts| > 0 {
      var c := match Get(n.children, parts[0]) case Some(c) => c case None => CreateDirectory(parts[0]);
      if Get(n.children, parts[0]).Some? {
        GetAllDirectories(n, parts[0]);
      }
      MkdirAllCreatesPath(c, parts[1..]);
      var r := MkdirAll(n, parts);
      assert r.children == Set(n.children, parts[0], MkdirAll(c, parts[1..]));
      assert Get(r.children, parts[0]) == Some(MkdirAll(c, parts[1..]));
      assert Lookup(r, parts) == Lookup(MkdirAll(c, parts[1..]), parts[1..]);
    }
  }

  lemma MkdirAllWellFormed(n: Node, parts: seq<string>)
    requires WellFormed(n)
    ensures WellFormed(MkdirAll(n, parts))
    decreases |parts|
  {
    if |parts| > 0 {
      var c := match Get(n.children, parts[0]) case Some(c) => c case None => CreateDirectory(parts[0]);
      if Get(n.children, parts[0]).Some? {
        GetWellFormed(n, parts[0]);
      }
      MkdirAllWellFormed(c, parts[1..]);
      SetWellFormed(n, MkdirAll(c, parts[1..]));
    }
  }

  /** Internal write skips a file whose parent path is missing, and otherwise files it under its name. */
  lemma WriteInternalEffect(root: Node, parts: seq<string>, content: Bytes)
    requires |parts| > 0
    ensures Walk(root, Init(parts)).None? ==> WriteInternal(root, parts, content) == root
    ensures Walk(root, Init(parts)).Some? ==> Walk(WriteInternal(root, parts, content), parts) == Some(CreateFile(Last(parts), content))
  {
    if Walk(root, Init(parts)).Some? {
      var parent := Walk(root, Init(parts)).value;
      var p' := parent.(children := Set(parent.children, Last(parts), CreateFile(Last(parts), content)));
      InitLast(parts);
      hide ReplaceAt, Set;
      ReplaceAtWalk(root, Init(parts), p');
      WalkAppend(ReplaceAt(root, Init(parts), p'), Init(parts), [Last(parts)]);
    }
  }

  lemma {:induction false} ReplaceAtWalk(n: Node, dir: seq<string>, m: Node)
    requires Walk(n, dir).Some?
    ensures Walk(ReplaceAt(n, dir, m), dir) == Some(m)
    decreases |dir|
  {
    if |dir| > 0 {
      ReplaceAtWalk(Get(n.children, dir[0]).value, dir[1..], m);
    }
  }

  lemma {:induction false} WalkAppend(n: Node, a: seq<string>, b: seq<string>)
    requires Walk(n, a).Some?
    ensures Walk(n, a + b) == Walk(Walk(n, a).value, b)
    decreases |a|
  {
    if |a| > 0 {
      assert (a + b)[0] == a[0] && (a + b)[1..] == a[1..] + b;
      var c := Get(n.children, a[0]).value;
      assert Walk(n, a) == Walk(c, a[1..]);
      assert Walk(n, a + b) == Walk(c, a[1..] + b);
      WalkAppend(c, a[1..], b);
    } else {
      assert a + b == b;
    }
  }

  lemma WriteInternalWellFormed(root: Node, parts: seq<string>, content: Bytes)
    requires WellFormed(root)
    ensures WellFormed(WriteInternal(root, parts, content))
    ensures WriteInternal(root, parts, content).kind == root.kind || parts == [Last(parts)]
  {
    if |parts| > 0 && Walk(root, Init(parts)).Some? {
      var parent := Walk(root, Init(parts)).value;
      WalkWellFormed(root, Init(parts));
      SetWellFormed(parent, CreateFile(Last(parts), content));
      ReplaceAtWellFormed(root, Init(parts), parent.(children := Set(parent.children, Last(parts), CreateFile(Last(parts), content))));
    }
  }

  /** The tree after the constructor: `/bin`, `/etc`, `/tmp`, then every
      content directory, then every content file (`encode` is the UTF-8
      encoder). */
  function InitialTree(files: seq<ContentLoader.ContentFile>, directories: seq<string>, encode: string -> Bytes): Node {
    WriteAll(DirectoryPhase(directories), files, encode)
  }

  /** What `getDirectoryPaths` promises of its result. */
  ghost predicate IsDirectoryList(files: seq<ContentLoader.ContentFile>, directories: seq<string>) {
    ContentLoader.NoDuplicates(directories) && ContentLoader.ByDepth(directories) &&
    forall d :: d in directories <==> ContentLoader.IsAncestorOf(files, d)
  }

  /** The tree after the directory phase of the constructor. */
  function DirectoryPhase(directories: seq<string>): Node {
    MkdirEach(MkdirAll(MkdirAll(MkdirAll(CreateDirectory("/"), ["bin"]), ["etc"]), ["tmp"]), directories)
  }

  function MkdirEach(n: Node, directories: seq<string>): Node
    decreases |directories|
  {
    if |directories| == 0 then n
    else MkdirEach(MkdirAll(n, ContentLoader.Parts(directories[0])), directories[1..])
  }

  function WriteAll(n: Node, files: seq<ContentLoader.ContentFile>, encode: string -> Bytes): Node
    decreases |files|
  {
    if |files| == 0 then n
    else WriteAll(WriteInternal(n, ContentLoader.Parts(files[0].path), encode(files[0].content)), files[1..], encode)
  }

  lemma {:induction false} MkdirEachAllDirectories(n: Node, directories: seq<string>)
    requires AllDirectories(n)
    ensures AllDirectories(MkdirEach(n, directories))
    decreases |directories|
  {
    if |directories| > 0 {
      MkdirAllCreatesPath(n, ContentLoader.Parts(directories[0]));
      MkdirEachAllDirectories(MkdirAll(n, ContentLoader.Parts(directories[0])), directories[1..]);
    }
  }

  lemma {:induction false} MkdirEachKeeps(n: Node, directories: seq<string>, q: seq<string>)
    requires AllDirectories(n) && Lookup(n, q).Some?
    ensures Lookup(MkdirEach(n, directories), q).Some?
    decreases |directories|
  {
    if |directories| > 0 {
      var n' := MkdirAll(n, ContentLoader.Parts(directories[0]));
      MkdirAllKeepsExisting(n, ContentLoader.Parts(directories[0]), q);
      MkdirAllCreatesPath(n, ContentLoader.Parts(directories[0]));
      MkdirEachKeeps(n', directories[1..], q);
    }
  }

  /** After the directory phase, `/bin`, `/etc`, `/tmp` and every content directory resolve, and no node is a file. */
  lemma DirectoryPhaseCreates(directories: seq<string>, k: nat)
    requires k < |directories|
    ensures AllDirectories(DirectoryPhase(directories))
    ensures Lookup(DirectoryPhase(directories), ["bin"]).Some?
    ensures Lookup(DirectoryPhase(directories), ["etc"]).Some?
    ensures Lookup(DirectoryPhase(directories), ["tmp"]).Some?
    ensures Lookup(DirectoryPhase(directories), ContentLoader.Parts(directories[k])).Some?
  {
    var t0 := CreateDirectory("/");
    var t1 := MkdirAll(t0, ["bin"]);
    var t2 := MkdirAll(t1, ["etc"]);
    var t3 := MkdirAll(t2, ["tmp"]);
    MkdirAllCreatesPath(t0, ["bin"]);
    MkdirAllCreatesPath(t1, ["etc"]);
    MkdirAllCreatesPath(t2, ["tmp"]);
    MkdirAllKeepsExisting(t1, ["etc"], ["bin"]);
    MkdirAllKeepsExisting(t2, ["tmp"], ["bin"]);
    MkdirAllKeepsExisting(t2, ["tmp"], ["etc"]);
    MkdirEachAllDirectories(t3, directories);
    MkdirEachKeeps(t3, directories, ["bin"]);
    MkdirEachKeeps(t3, directories, ["etc"]);
    MkdirEachKeeps(t3, directories, ["tmp"]);
    MkdirEachCreates(t3, directories, k);
  }

  lemma {:induction false} MkdirEachCreates(n: Node, directories: seq<string>, k: nat)
    requires AllDirectories(n) && k < |directories|
    ensures Lookup(MkdirEach(n, directories), ContentLoader.Parts(directories[k])).Some?
    decreases |directories|
  {
    var n' := MkdirAll(n, ContentLoader.Parts(directories[0]));
    MkdirAllCreatesPath(n, ContentLoader.Parts(directories[0]));
    if k == 0 {
      MkdirEachKeeps(n', directories[1..], ContentLoader.Parts(directories[0]));
    } else {
      MkdirEachCreates(n', directories[1..], k - 1);
    }
  }

  // ---- The object ------------------------------------------------------------

  class VirtualFileSystem {
    var root: Node

    ghost predicate Valid()
      reads this
    {
      root.kind == Directory && WellFormed(root)
    }

    /** `constructor`: an empty root directory, then `initDefaultStructure`.
        The content files and the UTF-8 encoder are parameters (the source
        reads them from the bundle). */
    constructor (files: seq<ContentLoader.ContentFile>, encode: string -> Bytes)
      ensures Valid()
      ensures exists directories :: IsDirectoryList(files, directories) && root == InitialTree(files, directories, encode)
    {
      root := CreateDirectory("/");
      new;
      InitDefaultStructure(files, encode);
    }

    /** `initDefaultStructure`: `/bin`, `/etc`, `/tmp`, then the content directories, then the content files. */
    method InitDefaultStructure(files: seq<ContentLoader.ContentFile>, encode: string -> Bytes)
      requires Valid() && root == CreateDirectory("/")
      modifies this
      ensures Valid()
      ensures exists directories :: IsDirectoryList(files, directories) && root == InitialTree(files, directories, encode)
    {
      MkdirInternal(["bin"]);
      MkdirInternal(["etc"]);
      MkdirInternal(["tmp"]);
      var directories := ContentLoader.GetDirectoryPaths(files);
      var i := 0;
      while i < |directories|
        invariant 0 <= i <= |directories|
        invariant Valid()
        invariant MkdirEach(root, directories[i..]) == DirectoryPhase(directories)
      {
        assert directories[i..][1..] == directories[i + 1..];
        MkdirInternal(ContentLoader.Parts(directories[i]));
        i := i + 1;
      }
      var j := 0;
      while j < |files|
        invariant 0 <= j <= |files|
        invariant Valid()
        invariant WriteAll(root, files[j..], encode) == InitialTree(files, directories, encode)
      {
        assert files[j..][1..] == files[j + 1..];
        WriteFileInternal(ContentLoader.Parts(files[j].path), encode(files[j].content));
        j := j + 1;
      }
      assert IsDirectoryList(files, directories) && root == InitialTree(files, directories, encode);
    }

    /** `mkdirInternal` */
    method MkdirInternal(pathParts: seq<string>)
      requires Valid()
      modifies this
      ensures Valid()
      ensures root == MkdirAll(old(root), pathParts)
    {
      MkdirAllWellFormed(root, pathParts);
      root := MkdirAll(root, pathParts);
    }

    /** `writeFileInternal` */
    method WriteFileInternal(pathParts: seq<string>, content: Bytes)
      requires Valid()
      modifies this
      ensures Valid()
      ensures root == WriteInternal(old(root), pathParts, content)
    {
      if |pathParts| == 0 {
        return;
      }
      WriteInternalWellFormed(root, pathParts, content);
      var dirParts := pathParts[..|pathParts| - 1];
      var fileName := pathParts[|pathParts| - 1];
      var current := root;
      var i := 0;
      while i < |dirParts|
        invariant 0 <= i <= |dirParts|
        invariant Walk(root, dirParts) == Walk(current, dirParts[i..])
      {
        match Get(current.children, dirParts[i]) {
          case None =>
            return;
          case Some(c) =>
            assert dirParts[i..][1..] == dirParts[i + 1..];
            current := c;
        }
        i := i + 1;
      }
      assert dirParts[i..] == [];
      root := ReplaceAt(root, dirParts, current.(children := Set(current.children, fileName, CreateFile(fileName, content))));
    }

    /** `resolve` */
    method Resolve(pathParts: seq<string>) returns (r: Option<Node>)
      ensures r == Lookup(root, pathParts)
    {
      var current := root;
      var i := 0;
      while i < |pathParts|
        invariant 0 <= i <= |pathParts|
        invariant Lookup(root, pathParts) == Lookup(current, pathParts[i..])
      {
        assert pathParts[i..][1..] == pathParts[i + 1..];
        if current.kind != Directory || !Has(current.children, pathParts[i]) {
          return None;
        }
        current := Get(current.children, pathParts[i]).value;
        i := i + 1;
      }
      return Some(current);
    }

    /** `listDir` */
    method ListDir(path: string) returns (r: Result<seq<FileEntry>, FsError>)
      ensures r == ListDirOf(root, Normalized(path))
      ensures Lookup(root, Normalized(path)).None? ==> r == Err(NotFound)
      ensures Lookup(root, Normalized(path)).Some? && Lookup(root, Normalized(path)).value.kind == File ==> r == Err(IsFile)
      ensures Lookup(root, Normalized(path)).Some? && Lookup(root, Normalized(path)).value.kind == Directory ==>
        r.Ok? && |r.value| == |Lookup(root, Normalized(path)).value.children| &&
        forall i :: 0 <= i < |r.value| ==>
          r.value[i].name == Lookup(root, Normalized(path)).value.children[i].0 &&
          r.value[i].isDir == (Lookup(root, Normalized(path)).value.children[i].1.kind == Directory)
    {
      hide Lookup, Normalized;
      var parts := NormalizePath(path);
      var node := Resolve(parts);
      if node.None? {
        return Err(NotFound);
      }
      if node.value.kind != Directory {
        return Err(IsFile);
      }
      var entries: seq<FileEntry> := [];
      var children := node.value.children;
      var i := 0;
      while i < |children|
        invariant 0 <= i <= |children|
        invariant entries == EntriesOf(children[..i])
      {
        assert children[..i + 1] == children[..i] + [children[i]];
        EntriesOfSnoc(children[..i], children[i]);
        entries := entries + [FileEntry(children[i].0, children[i].1.kind == Directory)];
        i := i + 1;
      }
      assert children[..i] == children;
      return Ok(entries);
    }

    /** `readFile` */
    method ReadFile(path: string) returns (r: Result<Bytes, FsError>)
      ensures Lookup(root, Normalized(path)).None? ==> r == Err(NotFound)
      ensures Lookup(root, Normalized(path)).Some? && Lookup(root, Normalized(path)).value.kind == Directory ==> r == Err(IsDirectory)
      ensures Lookup(root, Normalized(path)).Some? && Lookup(root, Normalized(path)).value.kind == File ==>
        r == Ok(Lookup(root, Normalized(path)).value.content)
    {
      var parts := NormalizePath(path);
      var node := Resolve(parts);
      if node.None? {
        return Err(NotFound);
      }
      if node.value.kind != File {
        return Err(IsDirectory);
      }
      return Ok(node.value.content);
    }

    /** `writeFile` */
    method WriteFile(path: string, data: Bytes) returns (r: Result<(), FsError>)
      requires Valid()
      modifies this
      ensures Valid()
      ensures WriteFileTree(old(root), Normalized(path), data).Ok? ==>
        r == Ok(()) && root == WriteFileTree(old(root), Normalized(path), data).value
      ensures WriteFileTree(old(root), Normalized(path), data).Err? ==>
        r == Err(WriteFileTree(old(root), Normalized(path), data).error) && root == old(root)
    {
      var parts := NormalizePath(path);
      if |parts| == 0 {
        return Err(PermissionDenied);
      }
      var dirParts := parts[..|parts| - 1];
      var fileName := parts[|parts| - 1];
      var parent := Resolve(dirParts);
      if parent.None? {
        return Err(NotFound);
      }
      if parent.value.kind != Directory {
        return Err(IsFile);
      }
      var existing := Get(parent.value.children, fileName);
      if existing.Some? && existing.value.kind == Directory {
        return Err(IsDirectory);
      }
      OperationsKeepWellFormed(root, parts, data);
      root := SetEntry(root, dirParts, fileName, Some(CreateFile(fileName, data)));
      return Ok(());
    }

    /** `mkdir` */
    method Mkdir(path: string) returns (r: Result<(), FsError>)
      requires Valid()
      modifies this
      ensures Valid()
      ensures MkdirTree(old(root), Normalized(path)).Ok? ==>
        r == Ok(()) && root == MkdirTree(old(root), Normalized(path)).value
      ensures MkdirTree(old(root), Normalized(path)).Err? ==>
        r == Err(MkdirTree(old(root), Normalized(path)).error) && root == old(root)
    {
      var parts := NormalizePath(path);
      if |parts| == 0 {
        return Err(PermissionDenied);
      }
      var dirParts := parts[..|parts| - 1];
      var dirName := parts[|parts| - 1];
      var parent := Resolve(dirParts);
      if parent.None? {
        return Err(NotFound);
      }
      if parent.value.kind != Directory {
        return Err(IsFile);
      }
      if Has(parent.value.children, dirName) {
        return Err(PermissionDenied);
      }
      OperationsKeepWellFormed(root, parts, []);
      root := SetEntry(root, dirParts, dirName, Some(CreateDirectory(dirName)));
      return Ok(());
    }

    /** `remove` */
    method Remove(path: string) returns (r: Result<(), FsError>)
      requires Valid()
      modifies this
      ensures Valid()
      ensures RemoveTree(old(root), Normalized(path)).Ok? ==>
        r == Ok(()) && root == RemoveTree(old(root), Normalized(path)).value
      ensures RemoveTree(old(root), Normalized(path)).Err? ==>
        r == Err(RemoveTree(old(root), Normalized(path)).error) && root == old(root)
    {
      var parts := NormalizePath(path);
      if |parts| == 0 {
        return Err(PermissionDenied);
      }
      var dirParts := parts[..|parts| - 1];
      var name := parts[|parts| - 1];
      var parent := Resolve(dirParts);
      if parent.None? {
        return Err(NotFound);
      }
      if parent.value.kind != Directory || !Has(parent.value.children, name) {
        return Err(NotFound);
      }
      OperationsKeepWellFormed(root, parts, []);
      root := SetEntry(root, dirParts, name, None);
      return Ok(());
    }

    /** `stat` */
    method Stat(path: string) returns (r: Result<FileStat, FsError>)
      ensures Lookup(root, Normalized(path)).None? ==> r == Err(NotFound)
      ensures Lookup(root, Normalized(path)).Some? ==>
        var n := Lookup(root, Normalized(path)).value;
        r == Ok(FileStat(n.name, n.kind == Directory, if n.kind == File then |n.content| else 0))
    {
      var parts := NormalizePath(path);
      var node := Resolve(parts);
      if node.None? {
        return Err(NotFound);
      }
      var size := if node.value.kind == File then |node.value.content| else 0;
      return Ok(FileStat(node.value.name, node.value.kind == Directory, size));
    }

    /** `exists` */
    method Exists(path: string) returns (b: bool)
      ensures b <==> Lookup(root, Normalized(path)).Some?
    {
      var parts := NormalizePath(path);
      var node := Resolve(parts);
      return node.Some?;
    }
  }

  lemma EntriesOfSnoc(children: Entries<string, Node>, e: (string, Node))
    ensures EntriesOf(children + [e]) == EntriesOf(children) + [FileEntry(e.0, e.1.kind == Directory)]
  {
  }
}
