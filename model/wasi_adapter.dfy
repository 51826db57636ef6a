/** The WASI preview2 `wasi:filesystem` adapter over the virtual file
    system: directory-entry streams, byte input and output streams and
    descriptors with offset reads and writes. A `FilesystemError` thrown by
    the source is an `Err(code)` result here. */
module WasiAdapter {
  import opened Wrappers
  import opened Text
  import V = VirtualFs

  datatype DescriptorType =
    | Unknown | BlockDevice | CharacterDevice | Directory | Fifo | SymbolicLink | RegularFile | Socket

  datatype ErrorCode =
    | Access | WouldBlock | Already | BadDescriptor | Busy | Deadlock | Quota | Exist | FileTooLarge
    | IllegalByteSequence | InProgress | Interrupted | Invalid | Io | IsDirectory | Loop | TooManyLinks
    | MessageSize | NameTooLong | NoDevice | NoEntry | NoLock | InsufficientMemory | InsufficientSpace
    | NotDirectory | NotEmpty | NotRecoverable | Unsupported | NoTty | NoSuchDevice | Overflow
    | NotPermitted | Pipe | ReadOnly | InvalidSeek | TextFileBusy | CrossDevice

  /** `DescriptorStat` without its three timestamps. */
  datatype DescriptorStat = DescriptorStat(kind: DescriptorType, linkCount: nat, size: nat)

  datatype DirectoryEntry = DirectoryEntry(kind: DescriptorType, name: string)

  /** Absent optional flags are `false`. */
  datatype DescriptorFlags = DescriptorFlags(
    read: bool, write: bool, fileIntegritySync: bool, dataIntegritySync: bool,
    requestedWriteSync: bool, mutateDirectory: bool)

  datatype OpenFlags = OpenFlags(create: bool, directory: bool, exclusive: bool, truncate: bool)

  datatype MetadataHashValue = MetadataHashValue(lower: nat, upper: nat)

  const ReadOnlyFlags := DescriptorFlags(true, false, false, false, false, false)

  // ---- Byte windows ------------------------------------------------------

  function Min(a: int, b: int): int {
    if a <= b then a else b
  }

  function Max(a: int, b: int): int {
    if a >= b then a else b
  }

  /** `Uint8Array.prototype.slice(start, end)` for non-negative bounds. */
  function Slice(data: Bytes, start: nat, end: nat): (r: Bytes)
    ensures |r| == if start < Min(end, |data|) then Min(end, |data|) - start else 0
    ensures forall i :: 0 <= i < |r| ==> r[i] == data[start + i]
  {
    if start < Min(end, |data|) then data[start..Min(end, |data|)] else []
  }

  /** Two consecutive reads return what one read of the combined length returns. */
  lemma SliceConsecutive(data: Bytes, start: nat, a: nat, b: nat)
    ensures Slice(data, start, start + a) + Slice(data, start + |Slice(data, start, start + a)|, start + |Slice(data, start, start + a)| + b) ==
      Slice(data, start, start + a + b)
  {
    var first := Slice(data, start, start + a);
    var second := Slice(data, start + |first|, start + |first| + b);
    var whole := Slice(data, start, start + a + b);
    assert |first| + |second| == |whole|;
    forall i | 0 <= i < |whole|
      ensures (first + second)[i] == whole[i]
    {
      if i >= |first| {
        assert (first + second)[i] == second[i - |first|];
      }
    }
  }

  function Zeros(n: nat): (r: Bytes)
    ensures |r| == n && forall i :: 0 <= i < n ==> r[i] == 0
  {
    if n == 0 then [] else Zeros(n - 1) + [0]
  }

  /** `content.set(buffer, off)`: overwrite the bytes at `off`. */
  function SetAt(base: Bytes, off: nat, buffer: Bytes): (r: Bytes)
    requires off + |buffer| <= |base|
    ensures |r| == |base|
    ensures forall i :: 0 <= i < |r| ==> r[i] == if off <= i < off + |buffer| then buffer[i - off] else base[i]
  {
    base[..off] + buffer + base[off + |buffer|..]
  }

  /** The bytes `Descriptor.write` stores: a zeroed array of the larger of
      the old size and `off + |buffer|`, with the old bytes and then the
      buffer copied in. */
  function Overlay(existing: Bytes, off: nat, buffer: Bytes): (r: Bytes)
    ensures |r| == Max(|existing|, off + |buffer|)
  {
    var size := Max(|existing|, off + |buffer|);
    SetAt(existing + Zeros(size - |existing|), off, buffer)
  }

  /** Every byte of a write's result: the buffer inside the written window,
      the old byte before the old end, zero in a gap past the old end. */
  lemma OverlayBytes(existing: Bytes, off: nat, buffer: Bytes)
    ensures forall i :: 0 <= i < |Overlay(existing, off, buffer)| ==>
      Overlay(existing, off, buffer)[i] ==
        if off <= i < off + |buffer| then buffer[i - off] else if i < |existing| then existing[i] else 0
  {
    var size := Max(|existing|, off + |buffer|);
    var base := existing + Zeros(size - |existing|);
    forall i | 0 <= i < size && !(off <= i < off + |buffer|)
      ensures base[i] == if i < |existing| then existing[i] else 0
    {
      if i >= |existing| {
        assert base[i] == Zeros(size - |existing|)[i - |existing|];
      }
    }
  }

  /** Reading back the window just written gives the buffer. */
  lemma ReadBackOverlay(existing: Bytes, off: nat, buffer: Bytes)
    ensures Slice(Overlay(existing, off, buffer), off, off + |buffer|) == buffer
  {
    OverlayBytes(existing, off, buffer);
  }

  /** A write at the end of the file appends. */
  lemma OverlayAtEndAppends(existing: Bytes, buffer: Bytes)
    ensures Overlay(existing, |existing|, buffer) == existing + buffer
  {
    OverlayBytes(existing, |existing|, buffer);
  }

  /** The bytes `OutputStream.write` stores: the same as a descriptor write
      for an existing file, but the data alone for a missing one. */
  function StreamContent(existing: Option<Bytes>, off: nat, data: Bytes): Bytes {
    match existing
    case Some(e) => Overlay(e, off, data)
    case None => data
  }

  /** The bytes `Descriptor.write` stores; a missing file counts as empty. */
  function DescriptorContent(existing: Option<Bytes>, off: nat, buffer: Bytes): Bytes {
    Overlay(existing.GetOr([]), off, buffer)
  }

  /** The two writers agree on an existing file; on a missing one the
      descriptor zero-fills up to the offset and the stream ignores it. */
  lemma StreamAndDescriptorWrites(existing: Option<Bytes>, off: nat, data: Bytes)
    ensures existing.Some? ==> StreamContent(existing, off, data) == DescriptorContent(existing, off, data)
    ensures existing.None? ==> StreamContent(existing, off, data) == data
    ensures existing.None? ==> DescriptorContent(existing, off, data) == Zeros(off) + data
  {
    if existing.None? {
      OverlayBytes([], off, data);
      assert DescriptorContent(existing, off, data) == Overlay([], off, data);
    }
  }

  // ---- `Descriptor.read` -------------------------------------------------

  /** `Descriptor.read(length, offset)` on the file's bytes: the chunk and the end-of-file flag. */
  function ReadWindow(data: Bytes, length: nat, offset: nat): (r: (Bytes, bool))
    ensures r.0 == Slice(data, offset, offset + length)
    ensures r.1 <==> offset + length >= |data|
  {
    var end := Min(offset + length, |data|);
    (Slice(data, offset, end), end >= |data|)
  }

  // ---- The file system seen through the adapter ------------------------------

  /** The file's bytes when `readFile` succeeds. */
  function Existing(root: V.Node, path: string): (r: Option<Bytes>)
    ensures r.Some? <==> V.Lookup(root, V.Normalized(path)).Some? && V.Lookup(root, V.Normalized(path)).value.kind == V.File
    ensures r.Some? ==> r.value == V.Lookup(root, V.Normalized(path)).value.content
  {
    match V.ReadFileOf(root, V.Normalized(path))
    case Ok(b) => Some(b)
    case Err(_) => None
  }

  /** `fs.writeFile` whose result is ignored: the new tree, or the old one on error. */
  function WriteOrKeep(root: V.Node, path: string, data: Bytes): V.Node {
    match V.WriteFileTree(root, V.Normalized(path), data)
    case Ok(t) => t
    case Err(_) => root
  }

  function TypeOf(o: Option<V.Node>): DescriptorType {
    match o
    case None => Unknown
    case Some(n) => if n.kind == V.Directory then Directory else RegularFile
  }

  // ---- Paths ---------------------------------------------------------------

  /** `resolvePath`: absolute paths as given, others below the descriptor's path. */
  function ResolvePath(base: string, relativePath: string): string {
    if |relativePath| > 0 && relativePath[0] == '/' then relativePath
    else if base == "/" then "/" + relativePath
    else base + "/" + relativePath
  }

  /** An absolute path names what it names; a relative one is walked from
      the descriptor's own directory, `..` and `.` included. */
  lemma ResolvePathMeaning(base: string, relativePath: string)
    ensures |relativePath| > 0 && relativePath[0] == '/' ==>
      V.Normalized(ResolvePath(base, relativePath)) == V.Normalized(relativePath)
    ensures !(|relativePath| > 0 && relativePath[0] == '/') ==>
      V.Normalized(ResolvePath(base, relativePath)) == V.Fold(V.Normalized(base), V.Segments(Split(relativePath, '/')))
  {
    if !(|relativePath| > 0 && relativePath[0] == '/') {
      if base == "/" {
        ResolveBelowRoot(relativePath);
      } else {
        ResolveBelow(base, relativePath);
      }
    }
  }

  lemma ResolveBelowRoot(relativePath: string)
    ensures V.Normalized("/" + relativePath) == V.Fold(V.Normalized("/"), V.Segments(Split(relativePath, '/')))
  {
    assert "/" + relativePath == "" + ['/'] + relativePath;
    SplitAppend("", relativePath, '/');
    V.SegmentsAppend([""], Split(relativePath, '/'));
    assert V.Segments([""]) == V.Segments([""][1..]);
    assert "/" == "" + ['/'] + "";
    SplitAppend("", "", '/');
    assert V.Segments(["", ""]) == V.Segments(["", ""][1..]);
    assert V.Normalized("/") == [];
  }

  lemma ResolveBelow(base: string, relativePath: string)
    ensures V.Normalized(base + "/" + relativePath) == V.Fold(V.Normalized(base), V.Segments(Split(relativePath, '/')))
  {
    assert base + "/" + relativePath == base + ['/'] + relativePath;
    SplitAppend(base, relativePath, '/');
    V.SegmentsAppend(Split(base, '/'), Split(relativePath, '/'));
    V.FoldAppend([], V.Segments(Split(base, '/')), V.Segments(Split(relativePath, '/')));
  }

  // ---- `metadataHash` --------------------------------------------------------

  const HashModulus: nat := 0x1_0000_0000_0000_0000

  /** The hash of a path: `h = (31 h + code) mod 2^64` over its characters. */
  function PathHash(s: string): (r: nat)
    ensures r < HashModulus
  {
    if |s| == 0 then 0 else (PathHash(s[..|s| - 1]) * 31 + s[|s| - 1] as int) % HashModulus
  }

  /** The path as a base-31 number, without reduction. */
  function Polynomial(s: string): nat {
    if |s| == 0 then 0 else Polynomial(s[..|s| - 1]) * 31 + s[|s| - 1] as int
  }

  /** Reducing at every step gives the reduced polynomial. */
  lemma {:induction false} PathHashIsPolynomial(s: string)
    ensures PathHash(s) == Polynomial(s) % HashModulus
  {
    if |s| > 0 {
      PathHashIsPolynomial(s[..|s| - 1]);
      ModStep(Polynomial(s[..|s| - 1]), s[|s| - 1] as int);
    }
  }

  lemma ModStep(x: nat, c: nat)
    ensures ((x % HashModulus) * 31 + c) % HashModulus == (x * 31 + c) % HashModulus
  {
    var q := x / HashModulus;
    var m := x % HashModulus;
    assert x == q * HashModulus + m;
    assert x * 31 + c == (q * 31) * HashModulus + (m * 31 + c);
    ModMultiple(q * 31, m * 31 + c);
  }

  lemma ModMultiple(k: nat, y: nat)
    ensures (k * HashModulus + y) % HashModulus == y % HashModulus
  {
  }

  /** The hash loop of `metadataHash` / `metadataHashAt`. */
  method HashPath(path: string) returns (hash: nat)
    ensures hash == PathHash(path)
  {
    hash := 0;
    var i := 0;
    while i < |path|
      invariant 0 <= i <= |path|
      invariant hash == PathHash(path[..i])
    {
      assert path[..i + 1][..i] == path[..i];
      hash := (hash * 31 + path[i] as int) % HashModulus;
      i := i + 1;
    }
    assert path[..i] == path;
  }

  // ---- Streams -------------------------------------------------------------

  /** `DirectoryEntryStream`: the entries in order, then nothing for ever. */
  class DirectoryEntryStream {
    const entries: seq<DirectoryEntry>
    var index: nat
    /** The entries handed out so far. */
    ghost var yielded: seq<DirectoryEntry>

    ghost predicate Valid()
      reads this
    {
      index <= |entries| && yielded == entries[..index]
    }

    constructor (entries: seq<DirectoryEntry>)
      ensures Valid() && this.entries == entries && index == 0 && yielded == []
    {
      this.entries := entries;
      index := 0;
      yielded := [];
    }

    method ReadDirectoryEntry() returns (r: Option<DirectoryEntry>)
      requires Valid()
      modifies this
      ensures Valid()
      ensures old(index) < |entries| ==> r == Some(entries[old(index)]) && yielded == old(yielded) + [r.value]
      ensures old(index) == |entries| ==> r == None && yielded == old(yielded)
    {
      if index >= |entries| {
        return None;
      }
      r := Some(entries[index]);
      assert entries[..index + 1] == entries[..index] + [entries[index]];
      index := index + 1;
      yielded := yielded + [r.value];
    }
  }

  /** `InputStream`: reads from an offset into fixed bytes. */
  class InputStream {
    const data: Bytes
    var offset: nat

    constructor (data: Bytes, offset: nat)
      ensures this.data == data && this.offset == offset
    {
      this.data := data;
      this.offset := offset;
    }

    method Read(len: nat) returns (r: Bytes)
      modifies this
      ensures r == Slice(data, old(offset), old(offset) + len)
      ensures offset == old(offset) + |r|
    {
      r := Slice(data, offset, offset + len);
      offset := offset + |r|;
    }

    method BlockingRead(len: nat) returns (r: Bytes)
      modifies this
      ensures r == Slice(data, old(offset), old(offset) + len)
      ensures offset == old(offset) + |r|
    {
      r := Read(len);
    }
  }

  /** `OutputStream`: writes at a moving offset into one file. */
  class OutputStream {
    const fs: V.VirtualFileSystem
    const path: string
    var offset: nat

    constructor (fs: V.VirtualFileSystem, path: string, offset: nat)
      ensures this.fs == fs && this.path == path && this.offset == offset
    {
      this.fs := fs;
      this.path := path;
      this.offset := offset;
    }

    method Write(data: Bytes) returns (n: nat)
      requires fs.Valid()
      modifies this, fs
      ensures fs.Valid()
      ensures fs.root == WriteOrKeep(old(fs.root), path, StreamContent(Existing(old(fs.root), path), old(offset), data))
      ensures offset == old(offset) + |data| && n == |data|
    {
      var result := fs.ReadFile(path);
      var content: Bytes;
      if result.Ok? {
        content := Overlay(result.value, offset, data);
      } else {
        content := data;
      }
      var _ := fs.WriteFile(path, content);
      offset := offset + |data|;
      n := |data|;
    }

    method BlockingWriteAndFlush(data: Bytes)
      requires fs.Valid()
      modifies this, fs
      ensures fs.Valid()
      ensures fs.root == WriteOrKeep(old(fs.root), path, StreamContent(Existing(old(fs.root), path), old(offset), data))
      ensures offset == old(offset) + |data|
    {
      var _ := Write(data);
    }
  }

  // ---- Descriptors ---------------------------------------------------------

  /** The state `openAt` leaves behind and whether it opens: create an empty
      file when asked and the path is missing, fail if the path is still
      missing, then empty the file when asked to truncate. */
  function OpenAtState(root: V.Node, fullPath: string, openFlags: OpenFlags): (V.Node, bool) {
    var created := if openFlags.create && V.Lookup(root, V.Normalized(fullPath)).None? then WriteOrKeep(root, fullPath, []) else root;
    if V.Lookup(created, V.Normalized(fullPath)).None? then (created, false)
    else (if openFlags.truncate then WriteOrKeep(created, fullPath, []) else created, true)
  }

  /** A failed `openAt` changes nothing; without `create` a missing path fails. */
  lemma OpenAtFailure(root: V.Node, fullPath: string, openFlags: OpenFlags)
    ensures !OpenAtState(root, fullPath, openFlags).1 ==> OpenAtState(root, fullPath, openFlags).0 == root
    ensures !openFlags.create && V.Lookup(root, V.Normalized(fullPath)).None? ==> OpenAtState(root, fullPath, openFlags) == (root, false)
  {
    var parts := V.Normalized(fullPath);
    if openFlags.create && V.Lookup(root, parts).None? && V.WriteFileTree(root, parts, []).Ok? {
      V.ReadAfterWrite(root, parts, []);
    }
  }

  /** `openAt` with `create` on a missing path whose parent directory exists
      opens a new empty file; `truncate` empties an existing file. */
  lemma OpenAtCreatesAndTruncates(root: V.Node, fullPath: string, openFlags: OpenFlags)
    requires root.kind == V.Directory
    ensures openFlags.create && V.Lookup(root, V.Normalized(fullPath)).None? && V.WriteFileTree(root, V.Normalized(fullPath), []).Ok? ==>
      OpenAtState(root, fullPath, openFlags).1 && Existing(OpenAtState(root, fullPath, openFlags).0, fullPath) == Some([])
    ensures openFlags.truncate && Existing(root, fullPath).Some? ==>
      OpenAtState(root, fullPath, openFlags).1 && Existing(OpenAtState(root, fullPath, openFlags).0, fullPath) == Some([])
  {
    var parts := V.Normalized(fullPath);
    if openFlags.create && V.Lookup(root, parts).None? && V.WriteFileTree(root, parts, []).Ok? {
      V.ReadAfterWrite(root, parts, []);
      var created := V.WriteFileTree(root, parts, []).value;
      if openFlags.truncate {
        V.WriteFileOverFile(created, parts, []);
        V.ReadAfterWrite(created, parts, []);
      }
    }
    if openFlags.truncate && Existing(root, fullPath).Some? {
      V.WriteFileOverFile(root, parts, []);
      V.ReadAfterWrite(root, parts, []);
    }
  }

  /** Truncating a directory fails silently inside `openAt`: the directory
      is opened unchanged. */
  lemma OpenAtTruncateDirectory(root: V.Node, fullPath: string, openFlags: OpenFlags)
    requires V.Lookup(root, V.Normalized(fullPath)).Some? && V.Lookup(root, V.Normalized(fullPath)).value.kind == V.Directory
    ensures OpenAtState(root, fullPath, openFlags) == (root, true)
  {
    var parts := V.Normalized(fullPath);
    V.WriteFileErrors(root, parts, []);
    if parts == [] {
      return;
    }
    assert parts == V.Init(parts) + [V.Last(parts)];
    if V.Lookup(root, V.Init(parts)).None? {
      V.LookupPrefixFails(root, V.Init(parts), [V.Last(parts)]);
    } else {
      V.LookupAppend(root, V.Init(parts), [V.Last(parts)]);
    }
  }

  class Descriptor {
    const fs: V.VirtualFileSystem
    const path: string
    const flags: DescriptorFlags

    constructor (fs: V.VirtualFileSystem, path: string, flags: DescriptorFlags)
      ensures this.fs == fs && this.path == path && this.flags == flags
    {
      this.fs := fs;
      this.path := path;
      this.flags := flags;
    }

    /** `readViaStream`: a stream over the file's bytes from `offset`. */
    method ReadViaStream(offset: nat) returns (r: Result<InputStream, ErrorCode>)
      ensures Existing(fs.root, path).None? ==> r == Err(NoEntry)
      ensures Existing(fs.root, path).Some? ==>
        r.Ok? && fresh(r.value) && r.value.data == Existing(fs.root, path).value && r.value.offset == offset
    {
      var result := fs.ReadFile(path);
      if result.Err? {
        return Err(NoEntry);
      }
      var stream := new InputStream(result.value, offset);
      return Ok(stream);
    }

    /** `writeViaStream` */
    method WriteViaStream(offset: nat) returns (r: OutputStream)
      ensures fresh(r) && r.fs == fs && r.path == path && r.offset == offset
    {
      r := new OutputStream(fs, path, offset);
    }

    /** `appendViaStream`: a stream positioned at the end of the file (0 if unreadable). */
    method AppendViaStream() returns (r: OutputStream)
      ensures fresh(r) && r.fs == fs && r.path == path
      ensures r.offset == if Existing(fs.root, path).Some? then |Existing(fs.root, path).value| else 0
    {
      var result := fs.ReadFile(path);
      var offset := if result.Ok? then |result.value| else 0;
      r := new OutputStream(fs, path, offset);
    }

    /** `getType`: unknown when the path does not resolve. */
    method GetType() returns (t: DescriptorType)
      ensures V.Lookup(fs.root, V.Normalized(path)).None? <==> t == Unknown
      ensures t == Directory <==> V.Lookup(fs.root, V.Normalized(path)).Some? && V.Lookup(fs.root, V.Normalized(path)).value.kind == V.Directory
      ensures t == RegularFile <==> V.Lookup(fs.root, V.Normalized(path)).Some? && V.Lookup(fs.root, V.Normalized(path)).value.kind == V.File
    {
      var result := fs.Stat(path);
      if result.Err? {
        return Unknown;
      }
      return if result.value.isDir then Directory else RegularFile;
    }

    /** `read(length, offset)`: the bytes `[offset, min(offset + length, size))` and whether that reaches the end. */
    method Read(length: nat, offset: nat) returns (r: Result<(Bytes, bool), ErrorCode>)
      ensures Existing(fs.root, path).None? ==> r == Err(NoEntry)
      ensures Existing(fs.root, path).Some? ==> r == Ok(ReadWindow(Existing(fs.root, path).value, length, offset))
    {
      var result := fs.ReadFile(path);
      if result.Err? {
        return Err(NoEntry);
      }
      var data := result.value;
      var end := Min(offset + length, |data|);
      var chunk := Slice(data, offset, end);
      var eof := end >= |data|;
      return Ok((chunk, eof));
    }

    /** `write(buffer, offset)`: always reports the buffer length; a write the file system refuses is dropped. */
    method Write(buffer: Bytes, offset: nat) returns (n: nat)
      requires fs.Valid()
      modifies fs
      ensures fs.Valid()
      ensures fs.root == WriteOrKeep(old(fs.root), path, DescriptorContent(Existing(old(fs.root), path), offset, buffer))
      ensures n == |buffer|
    {
      var result := fs.ReadFile(path);
      var content: Bytes;
      if result.Ok? {
        content := Overlay(result.value, offset, buffer);
      } else {
        content := Overlay([], offset, buffer);
      }
      var _ := fs.WriteFile(path, content);
      n := |buffer|;
    }

    /** `readDirectory`: the listing as a fresh entry stream. */
    method ReadDirectory() returns (r: Result<DirectoryEntryStream, ErrorCode>)
      ensures V.ListDirOf(fs.root, V.Normalized(path)).Err? ==> r == Err(NoEntry)
      ensures V.ListDirOf(fs.root, V.Normalized(path)).Ok? ==>
        r.Ok? && fresh(r.value) && r.value.Valid() && r.value.index == 0 &&
        r.value.entries == EntriesOfListing(V.ListDirOf(fs.root, V.Normalized(path)).value)
    {
      var result := fs.ListDir(path);
      if result.Err? {
        return Err(NoEntry);
      }
      assert result.value == V.ListDirOf(fs.root, V.Normalized(path)).value;
      var entries: seq<DirectoryEntry> := [];
      var i := 0;
      while i < |result.value|
        invariant 0 <= i <= |result.value|
        invariant entries == EntriesOfListing(result.value[..i])
      {
        assert result.value[..i + 1] == result.value[..i] + [result.value[i]];
        EntriesOfListingSnoc(result.value[..i], result.value[i]);
        entries := entries + [EntryOf(result.value[i])];
        i := i + 1;
      }
      assert result.value[..i] == result.value;
      var stream := new DirectoryEntryStream(entries);
      return Ok(stream);
    }

    /** `createDirectoryAt`: every `mkdir` error becomes `no-entry`. */
    method CreateDirectoryAt(p: string) returns (r: Result<(), ErrorCode>)
      requires fs.Valid()
      modifies fs
      ensures fs.Valid()
      ensures V.MkdirTree(old(fs.root), V.Normalized(ResolvePath(path, p))).Ok? ==>
        r == Ok(()) && fs.root == V.MkdirTree(old(fs.root), V.Normalized(ResolvePath(path, p))).value
      ensures V.MkdirTree(old(fs.root), V.Normalized(ResolvePath(path, p))).Err? ==>
        r == Err(NoEntry) && fs.root == old(fs.root)
    {
      var fullPath := ResolvePath(path, p);
      var result := fs.Mkdir(fullPath);
      if result.Err? {
        return Err(NoEntry);
      }
      return Ok(());
    }

    /** `stat` without timestamps: one link, the node's size. */
    method Stat() returns (r: Result<DescriptorStat, ErrorCode>)
      ensures r == StatResult(fs.root, path)
    {
      var result := fs.Stat(path);
      if result.Err? {
        return Err(NoEntry);
      }
      return Ok(DescriptorStat(if result.value.isDir then Directory else RegularFile, 1, result.value.size));
    }

    /** `statAt` */
    method StatAt(pathFlags: bool, p: string) returns (r: Result<DescriptorStat, ErrorCode>)
      ensures r == StatResult(fs.root, ResolvePath(path, p))
    {
      var fullPath := ResolvePath(path, p);
      var result := fs.Stat(fullPath);
      if result.Err? {
        return Err(NoEntry);
      }
      return Ok(DescriptorStat(if result.value.isDir then Directory else RegularFile, 1, result.value.size));
    }

    /** `openAt`: a new descriptor for the resolved path. */
    method OpenAt(pathFlags: bool, p: string, openFlags: OpenFlags, newFlags: DescriptorFlags) returns (r: Result<Descriptor, ErrorCode>)
      requires fs.Valid()
      modifies fs
      ensures fs.Valid()
      ensures fs.root == OpenAtState(old(fs.root), ResolvePath(path, p), openFlags).0
      ensures !OpenAtState(old(fs.root), ResolvePath(path, p), openFlags).1 ==> r == Err(NoEntry)
      ensures OpenAtState(old(fs.root), ResolvePath(path, p), openFlags).1 ==>
        r.Ok? && fresh(r.value) && r.value.fs == fs && r.value.path == ResolvePath(path, p) && r.value.flags == newFlags
    {
      var fullPath := ResolvePath(path, p);
      if openFlags.create {
        var present := fs.Exists(fullPath);
        if !present {
          var _ := fs.WriteFile(fullPath, []);
        }
      }
      var present := fs.Exists(fullPath);
      if !present {
        return Err(NoEntry);
      }
      if openFlags.truncate {
        var _ := fs.WriteFile(fullPath, []);
      }
      var d := new Descriptor(fs, fullPath, newFlags);
      return Ok(d);
    }

    /** `removeDirectoryAt`: removes the entry with its subtree, empty or not. */
    method RemoveDirectoryAt(p: string) returns (r: Result<(), ErrorCode>)
      requires fs.Valid()
      modifies fs
      ensures fs.Valid()
      ensures V.RemoveTree(old(fs.root), V.Normalized(ResolvePath(path, p))).Ok? ==>
        r == Ok(()) && fs.root == V.RemoveTree(old(fs.root), V.Normalized(ResolvePath(path, p))).value
      ensures V.RemoveTree(old(fs.root), V.Normalized(ResolvePath(path, p))).Err? ==>
        r == Err(NoEntry) && fs.root == old(fs.root)
    {
      var fullPath := ResolvePath(path, p);
      var result := fs.Remove(fullPath);
      if result.Err? {
        return Err(NoEntry);
      }
      return Ok(());
    }

    /** `unlinkFileAt`: the same removal, directories included. */
    method UnlinkFileAt(p: string) returns (r: Result<(), ErrorCode>)
      requires fs.Valid()
      modifies fs
      ensures fs.Valid()
      ensures V.RemoveTree(old(fs.root), V.Normalized(ResolvePath(path, p))).Ok? ==>
        r == Ok(()) && fs.root == V.RemoveTree(old(fs.root), V.Normalized(ResolvePath(path, p))).value
      ensures V.RemoveTree(old(fs.root), V.Normalized(ResolvePath(path, p))).Err? ==>
        r == Err(NoEntry) && fs.root == old(fs.root)
    {
      var fullPath := ResolvePath(path, p);
      var result := fs.Remove(fullPath);
      if result.Err? {
        return Err(NoEntry);
      }
      return Ok(());
    }

    /** `isSameObject`: two descriptors are the same object exactly when their paths are equal. */
    method IsSameObject(other: Descriptor) returns (b: bool)
      ensures b <==> path == other.path
      ensures b ==> PathHash(path) == PathHash(other.path)
    {
      b := path == other.path;
    }

    /** `metadataHash` */
    method MetadataHash() returns (h: MetadataHashValue)
      ensures h == MetadataHashValue(PathHash(path), 0)
      ensures h.lower < HashModulus
    {
      var lower := HashPath(path);
      h := MetadataHashValue(lower, 0);
    }

    /** `metadataHashAt`: the hash of the resolved path. */
    method MetadataHashAt(pathFlags: bool, p: string) returns (h: MetadataHashValue)
      ensures h == MetadataHashValue(PathHash(ResolvePath(path, p)), 0)
      ensures h.lower < HashModulus
    {
      var lower := HashPath(ResolvePath(path, p));
      h := MetadataHashValue(lower, 0);
    }
  }

  /** `stat` / `statAt` on a tree: `no-entry` for a missing path. */
  function StatResult(root: V.Node, path: string): (r: Result<DescriptorStat, ErrorCode>)
    ensures r.Err? <==> V.Lookup(root, V.Normalized(path)).None?
    ensures r.Ok? ==> r.value.linkCount == 1 && r.value.kind == TypeOf(V.Lookup(root, V.Normalized(path)))
    ensures r.Ok? && r.value.kind == RegularFile ==> r.value.size == |V.Lookup(root, V.Normalized(path)).value.content|
    ensures r.Ok? && r.value.kind == Directory ==> r.value.size == 0
  {
    match V.StatOf(root, V.Normalized(path))
    case Err(_) => Err(NoEntry)
    case Ok(s) => Ok(DescriptorStat(if s.isDir then Directory else RegularFile, 1, s.size))
  }

  function EntryOf(e: V.FileEntry): DirectoryEntry {
    DirectoryEntry(if e.isDir then Directory else RegularFile, e.name)
  }

  /** The `readDirectory` entries: one per listed child, in listing order. */
  function EntriesOfListing(listing: seq<V.FileEntry>): (r: seq<DirectoryEntry>)
    ensures |r| == |listing|
    ensures forall i :: 0 <= i < |r| ==> r[i].name == listing[i].name && (r[i].kind == Directory <==> listing[i].isDir)
  {
    if |listing| == 0 then [] else [EntryOf(listing[0])] + EntriesOfListing(listing[1..])
  }

  lemma {:induction false} EntriesOfListingSnoc(listing: seq<V.FileEntry>, e: V.FileEntry)
    ensures EntriesOfListing(listing + [e]) == EntriesOfListing(listing) + [EntryOf(e)]
  {
    if |listing| == 0 {
      assert listing + [e] == [e];
    } else {
      assert (listing + [e])[0] == listing[0] && (listing + [e])[1..] == listing[1..] + [e];
      EntriesOfListingSnoc(listing[1..], e);
    }
  }

  /** `preopens.getDirectories`: one read-write descriptor for `/`. */
  method GetDirectories(fs: V.VirtualFileSystem) returns (r: seq<(Descriptor, string)>)
    ensures |r| == 1 && r[0].1 == "/" && fresh(r[0].0)
    ensures r[0].0.fs == fs && r[0].0.path == "/"
    ensures r[0].0.flags == DescriptorFlags(true, true, false, false, false, true)
  {
    var root := new Descriptor(fs, "/", DescriptorFlags(true, true, false, false, false, true));
    r := [(root, "/")];
  }
}
