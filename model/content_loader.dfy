/** Build-time content manifest of the virtual filesystem
    (src/filesystem/content-loader.ts): the mapping from bundle paths to
    filesystem paths, and the list of directories the files need. */
module ContentLoader {
  import opened Text

  /** A text file bundled with the site, already at its filesystem path. */
  datatype ContentFile = ContentFile(path: string, content: string)

  const Prefix: string := "/src/content"

  /** `transformPath`: strip a leading `/src/content`; the bare prefix maps to `/`. */
  function TransformPath(globPath: string): (r: string)
    ensures Prefix <= globPath && |globPath| > |Prefix| ==> r == globPath[|Prefix|..]
    ensures globPath == Prefix ==> r == "/"
    ensures !(Prefix <= globPath) ==> r == globPath
  {
    if Prefix <= globPath then
      var rest := globPath[|Prefix|..];
      if rest == "" then "/" else rest
    else globPath
  }

  /** A transformed bundle path never starts with the bundle prefix again,
      unless the bundle itself nested it there. */
  lemma TransformPathStrips(p: string)
    ensures TransformPath(Prefix + p) == (if p == "" then "/" else p)
  {
    assert (Prefix + p)[|Prefix|..] == p;
  }

  /** The components of a path: `path.split('/').filter(Boolean)`. */
  function Parts(path: string): seq<string> {
    NonEmpty(Split(path, '/'))
  }

  /** `'/' + parts[0] + '/' + ... + '/' + parts[k]`: the path of the first `k + 1` components. */
  function PrefixPath(parts: seq<string>, k: nat): string
    requires k < |parts|
  {
    if k == 0 then "/" + parts[0] else PrefixPath(parts, k - 1) + "/" + parts[k]
  }

  /** The number of pieces `split('/')` gives: one more than the number of slashes. */
  function Depth(path: string): nat {
    |Split(path, '/')|
  }

  predicate NoDuplicates(s: seq<string>) {
    forall i, j :: 0 <= i < j < |s| ==> s[i] != s[j]
  }

  predicate ByDepth(s: seq<string>) {
    forall i, j :: 0 <= i < j < |s| ==> Depth(s[i]) <= Depth(s[j])
  }

  /** `d` is the path of a proper ancestor of the file with components `parts`. */
  ghost predicate InAncestry(parts: seq<string>, d: string) {
    exists k :: 0 <= k < |parts| - 1 && d == PrefixPath(parts, k)
  }

  /** `d` is a proper ancestor of one of the files. */
  ghost predicate IsAncestorOf(files: seq<ContentFile>, d: string) {
    exists f :: 0 <= f < |files| && InAncestry(Parts(files[f].path), d)
  }

  lemma IsAncestorOfSnoc(files: seq<ContentFile>, f: nat, d: string)
    requires f < |files|
    ensures IsAncestorOf(files[..f + 1], d) <==> IsAncestorOf(files[..f], d) || InAncestry(Parts(files[f].path), d)
  {
    if IsAncestorOf(files[..f + 1], d) {
      var g :| 0 <= g < f + 1 && InAncestry(Parts(files[..f + 1][g].path), d);
      if g < f {
        assert files[..f][g] == files[..f + 1][g];
      }
    }
    if IsAncestorOf(files[..f], d) {
      var g :| 0 <= g < f && InAncestry(Parts(files[..f][g].path), d);
      assert files[..f + 1][g] == files[..f][g];
    }
    if InAncestry(Parts(files[f].path), d) {
      assert files[..f + 1][f] == files[f];
    }
  }

  /** The elements of `s` at depth `e`, in their order in `s`. */
  function AtDepth(s: seq<string>, e: nat): seq<string> {
    if |s| == 0 then [] else (if Depth(s[0]) == e then [s[0]] else []) + AtDepth(s[1..], e)
  }

  lemma {:induction false} AtDepthAppend(a: seq<string>, b: seq<string>, e: nat)
    ensures AtDepth(a + b, e) == AtDepth(a, e) + AtDepth(b, e)
    decreases |a|
  {
    if |a| > 0 {
      assert (a + b)[0] == a[0] && (a + b)[1..] == a[1..] + b;
      AtDepthAppend(a[1..], b, e);
    } else {
      assert a + b == b;
    }
  }

  lemma {:induction false} AtDepthNone(s: seq<string>, e: nat)
    requires forall y :: y in s ==> Depth(y) != e
    ensures AtDepth(s, e) == []
    decreases |s|
  {
    if |s| > 0 {
      assert s[0] in s;
      AtDepthNone(s[1..], e);
    }
  }

  /** Stable insertion of `x` before the first element deeper than it. */
  function InsertByDepth(sorted: seq<string>, x: string): (r: seq<string>)
    requires ByDepth(sorted)
    ensures ByDepth(r)
    ensures forall y :: y in r ==> y in sorted || y == x
    ensures multiset(r) == multiset(sorted) + multiset{x}
  {
    if |sorted| == 0 then [x]
    else if Depth(sorted[0]) > Depth(x) then
      FirstIsShallowest(sorted);
      ByDepthCons(x, sorted);
      [x] + sorted
    else
      ByDepthTail(sorted);
      var rest := InsertByDepth(sorted[1..], x);
      FirstIsShallowest(sorted);
      assert sorted == [sorted[0]] + sorted[1..];
      ByDepthCons(sorted[0], rest);
      [sorted[0]] + rest
  }

  /** The insertion is stable: among paths of one depth, `x` comes after
      those already there, which keep their order. */
  lemma {:induction false} InsertByDepthStable(sorted: seq<string>, x: string, e: nat)
    requires ByDepth(sorted)
    ensures AtDepth(InsertByDepth(sorted, x), e) == AtDepth(sorted, e) + (if Depth(x) == e then [x] else [])
    decreases |sorted|
  {
    hide InsertByDepth, AtDepth, Depth, ByDepth;
    if |sorted| > 0 {
      InsertByDepthUnfold(sorted, x);
      if Depth(sorted[0]) > Depth(x) {
        FirstIsShallowest(sorted);
        StableInFront(x, sorted, e);
      } else {
        var rest := InsertByDepth(sorted[1..], x);
        InsertByDepthStable(sorted[1..], x, e);
        StableBehind(sorted[0], rest, sorted[1..], e, if Depth(x) == e then [x] else []);
        assert sorted == [sorted[0]] + sorted[1..];
      }
    } else {
      InsertByDepthUnfold(sorted, x);
      StableInFront(x, sorted, e);
    }
  }

  /** One step of the insertion. */
  lemma InsertByDepthUnfold(sorted: seq<string>, x: string)
    requires ByDepth(sorted)
    ensures |sorted| == 0 ==> InsertByDepth(sorted, x) == [x] + sorted
    ensures |sorted| > 0 ==> ByDepth(sorted[1..])
    ensures |sorted| > 0 ==>
      (InsertByDepth(sorted, x) ==
       if Depth(sorted[0]) > Depth(x) then [x] + sorted else [sorted[0]] + InsertByDepth(sorted[1..], x))
  {
    if |sorted| > 0 {
      ByDepthTail(sorted);
    }
  }

  /** A path shallower than all of `sorted` joins its depth's paths as the last one. */
  lemma StableInFront(x: string, sorted: seq<string>, e: nat)
    requires forall y :: y in sorted ==> Depth(x) < Depth(y)
    ensures AtDepth([x] + sorted, e) == AtDepth(sorted, e) + (if Depth(x) == e then [x] else [])
  {
    assert ([x] + sorted)[0] == x && ([x] + sorted)[1..] == sorted;
    if Depth(x) == e {
      AtDepthNone(sorted, e);
    }
  }

  /** The same head in front of two lists adds the same path at its depth. */
  lemma StableBehind(h: string, rest: seq<string>, tail: seq<string>, e: nat, added: seq<string>)
    requires AtDepth(rest, e) == AtDepth(tail, e) + added
    ensures AtDepth([h] + rest, e) == AtDepth([h] + tail, e) + added
  {
    assert ([h] + rest)[0] == h && ([h] + rest)[1..] == rest;
    assert ([h] + tail)[0] == h && ([h] + tail)[1..] == tail;
  }

  lemma FirstIsShallowest(sorted: seq<string>)
    requires ByDepth(sorted) && |sorted| > 0
    ensures forall y :: y in sorted ==> Depth(sorted[0]) <= Depth(y)
  {
  }

  lemma ByDepthTail(sorted: seq<string>)
    requires ByDepth(sorted) && |sorted| > 0
    ensures ByDepth(sorted[1..])
  {
  }

  /** A path no deeper than any of `rest` can go in front of it. */
  lemma ByDepthCons(a: string, rest: seq<string>)
    requires ByDepth(rest) && forall y :: y in rest ==> Depth(a) <= Depth(y)
    ensures ByDepth([a] + rest)
  {
    var r := [a] + rest;
    forall i, j | 0 <= i < j < |r| ensures Depth(r[i]) <= Depth(r[j]) {
      assert r[j] == rest[j - 1];
      if i > 0 {
        assert r[i] == rest[i - 1];
      }
    }
  }

  /** `getDirectoryPaths`: the set of ancestor directories of all files, in
      insertion order, then sorted (stably) by depth so that parents come
      before children. */
  method GetDirectoryPaths(files: seq<ContentFile>) returns (result: seq<string>)
    ensures NoDuplicates(result)
    ensures ByDepth(result)
    ensures forall d :: d in result <==> IsAncestorOf(files, d)
  {
    var dirs: seq<string> := [];
    var f := 0;
    while f < |files|
      invariant 0 <= f <= |files|
      invariant NoDuplicates(dirs)
      invariant forall d :: d in dirs <==> IsAncestorOf(files[..f], d)
    {
      dirs := AddAncestors(dirs, Parts(files[f].path));
      forall d ensures d in dirs <==> IsAncestorOf(files[..f + 1], d) {
        IsAncestorOfSnoc(files, f, d);
      }
      f := f + 1;
    }
    assert files[..|files|] == files;
    result := SortByDepth(dirs);
    NoDuplicatesPermutation(dirs, result);
  }

  /** The loop of `getDirectoryPaths` over one file's components: each
      proper ancestor's path is added once, at the end. */
  method AddAncestors(dirs: seq<string>, parts: seq<string>) returns (out: seq<string>)
    requires NoDuplicates(dirs)
    ensures NoDuplicates(out)
    ensures forall d :: d in out <==> d in dirs || InAncestry(parts, d)
  {
    out := dirs;
    var currentPath := "";
    var i := 0;
    while i + 1 < |parts|
      invariant 0 <= i <= |parts|
      invariant i == 0 ==> currentPath == ""
      invariant i > 0 ==> currentPath == PrefixPath(parts, i - 1)
      invariant NoDuplicates(out)
      invariant forall d :: d in out <==> d in dirs || exists k :: 0 <= k < i && k < |parts| - 1 && d == PrefixPath(parts, k)
    {
      currentPath := currentPath + "/" + parts[i];
      assert currentPath == PrefixPath(parts, i);
      if currentPath !in out {
        out := out + [currentPath];
      }
      i := i + 1;
    }
  }

  /** The stable sort by depth that ends `getDirectoryPaths`. */
  method SortByDepth(dirs: seq<string>) returns (result: seq<string>)
    ensures ByDepth(result) && multiset(result) == multiset(dirs)
    ensures forall e :: AtDepth(result, e) == AtDepth(dirs, e)
  {
    result := [];
    var j := 0;
    while j < |dirs|
      invariant 0 <= j <= |dirs|
      invariant ByDepth(result)
      invariant multiset(result) == multiset(dirs[..j])
      invariant forall e :: AtDepth(result, e) == AtDepth(dirs[..j], e)
    {
      ghost var oldResult := result;
      result := InsertByDepth(result, dirs[j]);
      assert dirs[..j + 1] == dirs[..j] + [dirs[j]];
      forall e ensures AtDepth(dirs[..j + 1], e) == AtDepth(dirs[..j], e) + (if Depth(dirs[j]) == e then [dirs[j]] else []) {
        AtDepthAppend(dirs[..j], [dirs[j]], e);
      }
      forall e ensures AtDepth(result, e) == AtDepth(dirs[..j + 1], e) {
        InsertByDepthStable(oldResult, dirs[j], e);
      }
      j := j + 1;
    }
    assert dirs[..j] == dirs;
  }

  /** A permutation of a duplicate-free sequence is duplicate free and has the same elements. */
  lemma NoDuplicatesPermutation(a: seq<string>, b: seq<string>)
    requires NoDuplicates(a)
    requires multiset(a) == multiset(b)
    ensures NoDuplicates(b)
    ensures forall x :: x in a <==> x in b
  {
    forall x ensures x in a <==> x in b {
      assert x in a <==> x in multiset(a);
      assert x in b <==> x in multiset(b);
    }
    forall i, j | 0 <= i < j < |b| ensures b[i] != b[j] {
      if b[i] == b[j] {
        MultisetCountAtLeastTwo(b, i, j);
        MultisetCountAtMostOne(a, b[i]);
      }
    }
  }

  lemma MultisetCountAtLeastTwo(s: seq<string>, i: nat, j: nat)
    requires i < j < |s| && s[i] == s[j]
    ensures multiset(s)[s[i]] >= 2
  {
    assert s == s[..i] + [s[i]] + s[i + 1..j] + [s[j]] + s[j + 1..];
  }

  lemma {:induction false} MultisetCountAtMostOne(s: seq<string>, x: string)
    requires NoDuplicates(s)
    ensures multiset(s)[x] <= 1
  {
    if |s| > 0 {
      MultisetCountAtMostOne(s[1..], x);
      assert s == [s[0]] + s[1..];
      assert s[0] !in s[1..];
    }
  }
}
