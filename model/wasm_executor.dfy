/** The main-thread side of running a command in the worker: the snapshot
    of the file system handed to the worker, and the interactive stdin
    buffer that exists while a command runs. Posting messages and waiting
    for the reply are left to the caller. */
module WasmExecutor {
  import opened Wrappers
  import opened Text
  import opened OrderedMap
  import opened ShellTypes
  import V = VirtualFs
  import WasiAdapter
  import StdinBuffer

  /** The preview2 file data: `{dir: {...}}` or `{source: bytes}`. */
  datatype Preview2 = DirObject(dir: Entries<string, Preview2>) | SourceObject(source: Bytes)

  /** Every entry name is a single canonical path component. */
  predicate CanonicalNames(n: V.Node) {
    forall e :: e in n.children ==> V.Canonical([e.0]) && CanonicalNames(e.1)
  }

  /** `convertDir` on a node: a directory becomes the record of its
      entries, anything else an empty record (an unlistable path). */
  function ConvertNode(n: V.Node): Preview2
    decreases n, 1
  {
    if n.kind == V.Directory then DirObject(ConvertChildren(n, 0)) else DirObject([])
  }

  /** The record entries for `n`'s children from index `i` on. */
  function ConvertChildren(n: V.Node, i: nat): (r: Entries<string, Preview2>)
    ensures |r| == if i <= |n.children| then |n.children| - i else 0
    ensures forall k :: 0 <= k < |r| ==> r[k] == (n.children[i + k].0, ConvertEntry(n.children[i + k].1))
    decreases n, 0, |n.children| - i
  {
    if i >= |n.children| then []
    else [(n.children[i].0, ConvertEntry(n.children[i].1))] + ConvertChildren(n, i + 1)
  }

  /** A child directory recurses; a file becomes its bytes. */
  function ConvertEntry(c: V.Node): Preview2
    decreases c, 2
  {
    if c.kind == V.Directory then ConvertNode(c) else SourceObject(c.content)
  }

  /** Follow a path through a snapshot. */
  function SnapshotLookup(p: Preview2, q: seq<string>): Option<Preview2>
    decreases |q|
  {
    if |q| == 0 then Some(p)
    else match p
      case SourceObject(_) => None
      case DirObject(dir) =>
        match Get(dir, q[0])
        case None => None
        case Some(c) => SnapshotLookup(c, q[1..])
  }

  lemma GetConvertChildren(n: V.Node, k: string)
    requires V.WellFormed(n) && n.kind == V.Directory
    ensures Get(ConvertChildren(n, 0), k) == match Get(n.children, k) case None => None case Some(c) => Some(ConvertEntry(c))
  {
    assert DistinctKeys(n.children);
    hide V.WellFormed, ConvertEntry;
    var r := ConvertChildren(n, 0);
    if Has(n.children, k) {
      var i :| 0 <= i < |n.children| && n.children[i].0 == k;
      GetAt(n.children, i);
      assert r[i] == (k, ConvertEntry(n.children[i].1));
      assert DistinctKeys(r) by {
        forall a, b | 0 <= a < b < |r| ensures r[a].0 != r[b].0 {
          assert r[a].0 == n.children[a].0 && r[b].0 == n.children[b].0;
        }
      }
      GetAt(r, i);
    } else {
      assert !Has(r, k) by {
        forall a | 0 <= a < |r| ensures r[a].0 != k {
          assert r[a].0 == n.children[a].0;
        }
      }
    }
  }

  /** The snapshot mirrors the tree: a directory's path leads to its
      converted record, a file's path (below the root) to its bytes, and a
      path that does not resolve leads nowhere. */
  lemma {:induction false} SnapshotMirrorsTree(n: V.Node, q: seq<string>)
    requires V.WellFormed(n) && n.kind == V.Directory
    ensures V.Lookup(n, q).None? ==> SnapshotLookup(ConvertNode(n), q).None?
    ensures V.Lookup(n, q).Some? && V.Lookup(n, q).value.kind == V.Directory ==>
      SnapshotLookup(ConvertNode(n), q) == Some(ConvertNode(V.Lookup(n, q).value))
    ensures V.Lookup(n, q).Some? && V.Lookup(n, q).value.kind == V.File ==>
      SnapshotLookup(ConvertNode(n), q) == Some(SourceObject(V.Lookup(n, q).value.content))
    decreases |q|
  {
    if |q| > 0 {
      GetConvertChildren(n, q[0]);
      match Get(n.children, q[0]) {
        case None =>
        case Some(c) =>
          V.GetWellFormed(n, q[0]);
          assert V.Lookup(n, q) == V.Lookup(c, q[1..]);
          if c.kind == V.Directory {
            SnapshotMirrorsTree(c, q[1..]);
          } else {
            assert SnapshotLookup(ConvertNode(n), q) == SnapshotLookup(SourceObject(c.content), q[1..]);
          }
      }
    }
  }

  /** The path of a child entry, as `convertDir` builds it. */
  lemma ChildPath(path: string, parts: seq<string>, name: string)
    requires V.Normalized(path) == parts && V.Canonical([name])
    ensures V.Normalized(if path == "/" then "/" + name else path + "/" + name) == parts + [name]
  {
    assert [name][0] == name;
    assert name != "" && '/' !in name;
    assert name[0] != '/' by {
      assert name[0] in name;
    }
    assert (if path == "/" then "/" + name else path + "/" + name) == WasiAdapter.ResolvePath(path, name);
    WasiAdapter.ResolvePathMeaning(path, name);
    SplitWithoutSeparator(name, '/');
    assert V.Segments([name]) == [name] by {
      assert V.Segments([name][1..]) == [];
    }
    assert V.Fold(parts, [name]) == V.Fold(parts + [name], []);
  }

  /** `convertDir(path)`; `node` is what the path resolves to. */
  method ConvertDir(fs: V.VirtualFileSystem, path: string, ghost parts: seq<string>, ghost node: V.Node) returns (o: Preview2)
    requires V.Normalized(path) == parts && V.Lookup(fs.root, parts) == Some(node)
    requires V.WellFormed(node) && CanonicalNames(node)
    ensures o == ConvertNode(node)
    decreases node, 1
  {
    hide V.Lookup, V.Normalized, ConvertEntry, V.ListDirOf, V.WellFormed, CanonicalNames;
    var result := fs.ListDir(path);
    if result.Err? {
      assert node.kind != V.Directory;
      return DirObject([]);
    }
    assert node.kind == V.Directory;
    var entries := result.value;
    assert |entries| == |node.children|;
    var dir: Entries<string, Preview2> := [];
    var i := 0;
    while i < |entries|
      invariant 0 <= i <= |entries|
      invariant |dir| == i
      invariant forall k :: 0 <= k < i ==> dir[k] == (node.children[k].0, ConvertEntry(node.children[k].1))
    {
      var entry := entries[i];
      var sub := ConvertChild(fs, path, parts, node, i, entry);
      if sub.Some? {
        ConvertedEntryIsNew(node, dir, i);
        ghost var prev := dir;
        dir := Set(dir, entry.name, sub.value);
        assert dir == prev + [(node.children[i].0, ConvertEntry(node.children[i].1))];
        forall k | 0 <= k < i + 1 ensures dir[k] == (node.children[k].0, ConvertEntry(node.children[k].1)) {
          if k < i {
            assert dir[k] == prev[k];
          }
        }
      } else {
        assert false;
      }
      i := i + 1;
    }
    assert dir == ConvertChildren(node, 0);
    o := DirObject(dir);
  }

  /** The next entry's name is not yet in the record built so far, so
      setting it appends. */
  lemma ConvertedEntryIsNew(node: V.Node, dir: Entries<string, Preview2>, i: nat)
    requires V.WellFormed(node) && i < |node.children| && |dir| == i
    requires forall k :: 0 <= k < i ==> dir[k].0 == node.children[k].0
    ensures !Has(dir, node.children[i].0)
    ensures forall v :: Set(dir, node.children[i].0, v) == dir + [(node.children[i].0, v)]
  {
    forall k | 0 <= k < i ensures dir[k].0 != node.children[i].0 {
      assert dir[k].0 == node.children[k].0;
    }
  }

  /** The body of `convertDir`'s loop for the entry at index `i`: a
      directory recurses, a file is read (a read that fails adds nothing). */
  method ConvertChild(fs: V.VirtualFileSystem, path: string, ghost parts: seq<string>, ghost node: V.Node,
                      i: nat, entry: V.FileEntry) returns (o: Option<Preview2>)
    requires V.Normalized(path) == parts && V.Lookup(fs.root, parts) == Some(node)
    requires V.WellFormed(node) && CanonicalNames(node) && node.kind == V.Directory
    requires i < |node.children| && entry == V.FileEntry(node.children[i].0, node.children[i].1.kind == V.Directory)
    ensures o == Some(ConvertEntry(node.children[i].1))
    decreases node, 0
  {
    var childPath := if path == "/" then "/" + entry.name else path + "/" + entry.name;
    ghost var child := node.children[i].1;
    assert node.children[i] in node.children;
    ChildPath(path, parts, entry.name);
    GetAt(node.children, i);
    V.LookupAppend(fs.root, parts, [entry.name]);
    assert V.Lookup(node, [entry.name]) == V.Lookup(child, []);
    if entry.isDir {
      var sub := ConvertDir(fs, childPath, parts + [entry.name], child);
      o := Some(sub);
    } else {
      var fileResult := fs.ReadFile(childPath);
      if fileResult.Ok? {
        o := Some(SourceObject(fileResult.value));
      } else {
        o := None;
      }
    }
  }

  /** `convertToPreview2Format` */
  method ConvertToPreview2Format(fs: V.VirtualFileSystem) returns (o: Preview2)
    requires fs.Valid() && CanonicalNames(fs.root)
    ensures o == ConvertNode(fs.root)
  {
    assert V.Normalized("/") == [] by {
      assert Split("/", '/') == ["", ""] by {
        assert "/"[1..] == "";
      }
      assert V.Segments(["", ""]) == V.Segments(["", ""][1..]);
      assert V.Segments([""]) == V.Segments([""][1..]);
    }
    o := ConvertDir(fs, "/", [], fs.root);
  }

  /** `writeFile`, `mkdir` and `remove` on a canonical path keep every entry
      name a canonical component, so a tree that meets the precondition of
      `ConvertToPreview2Format` still meets it after any of them. */
  lemma OperationsKeepCanonicalNames(root: V.Node, parts: seq<string>, data: Bytes)
    requires CanonicalNames(root) && V.Canonical(parts)
    ensures V.WriteFileTree(root, parts, data).Ok? ==> CanonicalNames(V.WriteFileTree(root, parts, data).value)
    ensures V.MkdirTree(root, parts).Ok? ==> CanonicalNames(V.MkdirTree(root, parts).value)
    ensures V.RemoveTree(root, parts).Ok? ==> CanonicalNames(V.RemoveTree(root, parts).value)
  {
    if parts != [] && V.Lookup(root, V.Init(parts)).Some? {
      V.TreeOperationsAre(root, parts, data);
      var name := V.Last(parts);
      assert V.Canonical([name]);
      hide V.WriteFileTree, V.MkdirTree, V.RemoveTree, V.SetEntry;
      SetEntryCanonical(root, V.Init(parts), name, Some(V.CreateFile(name, data)));
      SetEntryCanonical(root, V.Init(parts), name, Some(V.CreateDirectory(name)));
      SetEntryCanonical(root, V.Init(parts), name, None);
    }
  }

  /** Setting or deleting a canonical entry name keeps the names canonical. */
  lemma SetEntryCanonical(root: V.Node, dir: seq<string>, name: string, o: Option<V.Node>)
    requires CanonicalNames(root) && V.Lookup(root, dir).Some? && V.Canonical([name])
    requires o.Some? ==> CanonicalNames(o.value)
    ensures CanonicalNames(V.SetEntry(root, dir, name, o))
  {
    V.LookupIsWalk(root, dir);
    var parent := V.Lookup(root, dir).value;
    WalkCanonical(root, dir);
    var changed := V.ChangeEntry(parent, name, o);
    assert CanonicalNames(changed) by {
      forall e | e in changed.children ensures V.Canonical([e.0]) && CanonicalNames(e.1) {
        if o.Some? {
          assert e == (name, o.value) || e in parent.children;
        } else {
          assert e in parent.children;
        }
      }
    }
    ReplaceAtCanonical(root, dir, changed);
  }

  lemma {:induction false} WalkCanonical(n: V.Node, dir: seq<string>)
    requires CanonicalNames(n) && V.Walk(n, dir).Some?
    ensures CanonicalNames(V.Walk(n, dir).value)
    decreases |dir|
  {
    if |dir| > 0 {
      var c := Get(n.children, dir[0]).value;
      var i :| 0 <= i < |n.children| && n.children[i] == (dir[0], c);
      assert n.children[i] in n.children;
      WalkCanonical(c, dir[1..]);
    }
  }

  lemma {:induction false} ReplaceAtCanonical(n: V.Node, dir: seq<string>, m: V.Node)
    requires CanonicalNames(n) && CanonicalNames(m) && V.Walk(n, dir).Some?
    ensures CanonicalNames(V.ReplaceAt(n, dir, m))
    decreases |dir|
  {
    if |dir| > 0 {
      var c := Get(n.children, dir[0]).value;
      var i :| 0 <= i < |n.children| && n.children[i] == (dir[0], c);
      assert n.children[i] in n.children;
      ReplaceAtCanonical(c, dir[1..], m);
      var r := V.ReplaceAt(c, dir[1..], m);
      forall e | e in Set(n.children, dir[0], r) ensures V.Canonical([e.0]) && CanonicalNames(e.1) {
        assert e == (dir[0], r) || e in n.children;
      }
    }
  }

  // ---- Interactive stdin -----------------------------------------------------

  /** The worker's reply: the id of the request, a result or an error. */
  datatype WorkerResponse = WorkerResponse(id: string, result: Option<CommandOutput>, error: Option<string>)

  /** The promise's settlement for a matching reply: a non-empty error
      message rejects, otherwise a result resolves, otherwise it rejects. */
  function ResponseOutcome(resp: WorkerResponse): (r: Result<CommandOutput, string>)
    ensures r.Ok? <==> (resp.error.None? || resp.error.value == "") && resp.result.Some?
    ensures r.Ok? ==> r.value == resp.result.value
    ensures resp.error.Some? && resp.error.value != "" ==> r == Err(resp.error.value)
  {
    if resp.error.Some? && resp.error.value != "" then Err(resp.error.value)
    else if resp.result.Some? then Ok(resp.result.value)
    else Err("Invalid worker response")
  }

  /** The module state of `wasm-executor.ts`: the current stdin buffer and
      the id the registered reply handler waits for. */
  class Executor {
    var currentStdinBuffer: Option<StdinBuffer.MainThreadStdinBuffer>
    var waitingFor: Option<string>

    ghost predicate Valid()
      reads this, if currentStdinBuffer.Some? then {currentStdinBuffer.value.buffer} else {}
    {
      currentStdinBuffer.Some? ==> currentStdinBuffer.value.buffer.Valid()
    }

    constructor ()
      ensures Valid() && currentStdinBuffer.None? && waitingFor.None?
    {
      currentStdinBuffer := None;
      waitingFor := None;
    }

    /** The start of `executeWasmCommand`: a stdin buffer only when the run is
        interactive and shared memory exists; the buffer handed to the
        worker, if any. A non-interactive run leaves the current buffer as
        it was. */
    method Start(id: string, interactive: bool, sharedMemoryAvailable: bool) returns (stdinBuffer: Option<StdinBuffer.SharedStdin>)
      requires Valid()
      modifies this
      ensures Valid() && waitingFor == Some(id)
      ensures interactive && sharedMemoryAvailable ==>
        currentStdinBuffer.Some? && fresh(currentStdinBuffer.value) && fresh(currentStdinBuffer.value.buffer) &&
        currentStdinBuffer.value.buffer.status == StdinBuffer.Waiting &&
        currentStdinBuffer.value.buffer.data.Length == StdinBuffer.DefaultSize &&
        stdinBuffer == Some(currentStdinBuffer.value.buffer)
      ensures !(interactive && sharedMemoryAvailable) ==> currentStdinBuffer == old(currentStdinBuffer) && stdinBuffer.None?
    {
      stdinBuffer := None;
      if interactive && sharedMemoryAvailable {
        var b := new StdinBuffer.MainThreadStdinBuffer.Default();
        currentStdinBuffer := Some(b);
        stdinBuffer := Some(b.GetBuffer());
      }
      waitingFor := Some(id);
    }

    /** The reply handler: a reply for the awaited id removes the handler,
        clears the stdin buffer and settles; any other reply is ignored. */
    method HandleResponse(resp: WorkerResponse) returns (settled: Option<Result<CommandOutput, string>>)
      requires Valid()
      modifies this
      ensures Valid()
      ensures old(waitingFor) == Some(resp.id) ==>
        settled == Some(ResponseOutcome(resp)) && currentStdinBuffer.None? && waitingFor.None?
      ensures old(waitingFor) != Some(resp.id) ==>
        settled.None? && currentStdinBuffer == old(currentStdinBuffer) && waitingFor == old(waitingFor)
    {
      if waitingFor == Some(resp.id) {
        waitingFor := None;
        currentStdinBuffer := None;
        return Some(ResponseOutcome(resp));
      }
      return None;
    }

    /** `writeStdin`: only while a buffer is current. */
    method WriteStdin(data: string, encode: string -> Bytes) returns (r: Result<(), string>)
      requires Valid()
      modifies if currentStdinBuffer.Some? then {currentStdinBuffer.value.buffer, currentStdinBuffer.value.buffer.data} else {}
      ensures Valid()
      ensures old(currentStdinBuffer).None? ==> r == Ok(())
      ensures old(currentStdinBuffer).Some? ==> var b := old(currentStdinBuffer).value.buffer;
        StdinBuffer.WriteSlot(old(b.State()), encode(data)).Ok? ==> b.State() == StdinBuffer.WriteSlot(old(b.State()), encode(data)).value
    {
      if currentStdinBuffer.Some? {
        r := currentStdinBuffer.value.WriteString(data, encode);
      } else {
        r := Ok(());
      }
    }

    /** `sendStdinEOF`: EOF, then no current buffer. */
    method SendStdinEof()
      requires Valid()
      modifies this, if currentStdinBuffer.Some? then {currentStdinBuffer.value.buffer} else {}
      ensures Valid() && currentStdinBuffer.None?
      ensures old(currentStdinBuffer).Some? ==> old(currentStdinBuffer).value.buffer.status == StdinBuffer.Eof
    {
      if currentStdinBuffer.Some? {
        currentStdinBuffer.value.SendEof();
        currentStdinBuffer := None;
      }
    }

    /** `isInteractiveMode` */
    method IsInteractiveMode() returns (b: bool)
      ensures b <==> currentStdinBuffer.Some?
    {
      b := currentStdinBuffer.Some?;
    }
  }
}
