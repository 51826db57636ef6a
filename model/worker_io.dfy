/** The command worker's I/O: capture of stdout and stderr, the stdin
    reader it installs, and the result it reports when a run fails. Loading
    and running the command itself is an outcome given as a parameter. */
module WasmWorker {
  import opened Wrappers
  import opened Text
  import opened ShellTypes
  import StdinBuffer

  /** The chunks of a capture, concatenated in write order. */
  function Flatten(chunks: seq<Bytes>): Bytes {
    if |chunks| == 0 then [] else Flatten(chunks[..|chunks| - 1]) + chunks[|chunks| - 1]
  }

  /** Capturing `a` and then `b` captures their concatenation. */
  lemma {:induction false} FlattenAppend(a: seq<Bytes>, b: seq<Bytes>)
    ensures Flatten(a + b) == Flatten(a) + Flatten(b)
    decreases |b|
  {
    if |b| == 0 {
      assert a + b == a;
    } else {
      var b' := b[..|b| - 1];
      assert (a + b)[..|a + b| - 1] == a + b';
      assert (a + b)[|a + b| - 1] == b[|b| - 1];
      FlattenAppend(a, b');
      assert Flatten(a + b) == Flatten(a + b') + b[|b| - 1];
      assert Flatten(b) == Flatten(b') + b[|b| - 1];
    }
  }

  /** `Uint8Array.prototype.set(chunk, offset)` */
  method SetBytes(a: array<Byte>, chunk: Bytes, offset: nat)
    requires offset + |chunk| <= a.Length
    modifies a
    ensures a[..offset] == old(a[..offset])
    ensures a[offset..offset + |chunk|] == chunk
    ensures a[offset + |chunk|..] == old(a[offset + |chunk|..])
  {
    var k := 0;
    while k < |chunk|
      invariant 0 <= k <= |chunk|
      invariant a[..offset] == old(a[..offset])
      invariant a[offset..offset + k] == chunk[..k]
      invariant a[offset + |chunk|..] == old(a[offset + |chunk|..])
    {
      a[offset + k] := chunk[k];
      k := k + 1;
    }
  }

  /** The first `j + 1` chunks are the first `j` and then chunk `j`, and
      they fit in the whole capture. */
  lemma FlattenPrefix(chunks: seq<Bytes>, j: nat)
    requires j < |chunks|
    ensures Flatten(chunks[..j + 1]) == Flatten(chunks[..j]) + chunks[j]
    ensures |Flatten(chunks[..j + 1])| <= |Flatten(chunks)|
  {
    assert chunks[..j + 1][..j] == chunks[..j];
    FlattenAppend(chunks[..j + 1], chunks[j + 1..]);
    assert chunks[..j + 1] + chunks[j + 1..] == chunks;
  }

  /** The first loop of `getOutput`: the summed chunk lengths. */
  method TotalLength(chunks: seq<Bytes>) returns (n: nat)
    ensures n == |Flatten(chunks)|
  {
    n := 0;
    var j := 0;
    while j < |chunks|
      invariant 0 <= j <= |chunks|
      invariant n == |Flatten(chunks[..j])|
    {
      FlattenPrefix(chunks, j);
      n := n + |chunks[j]|;
      j := j + 1;
    }
    assert chunks[..j] == chunks;
  }

  /** The second loop of `getOutput`: each chunk set at the running offset. */
  method CopyChunks(chunks: seq<Bytes>, result: array<Byte>)
    requires result.Length == |Flatten(chunks)|
    modifies result
    ensures result[..] == Flatten(chunks)
  {
    var offset := 0;
    var j := 0;
    while j < |chunks|
      invariant 0 <= j <= |chunks|
      invariant offset == |Flatten(chunks[..j])| <= result.Length
      invariant result[..offset] == Flatten(chunks[..j])
    {
      FlattenPrefix(chunks, j);
      SetBytes(result, chunks[j], offset);
      assert result[..offset + |chunks[j]|] == result[..offset] + result[offset..offset + |chunks[j]|];
      offset := offset + |chunks[j]|;
      j := j + 1;
    }
    assert chunks[..j] == chunks;
    assert result[..] == result[..offset];
  }

  /** `OutputCapture`: the chunks written to one output stream. */
  class OutputCapture {
    var chunks: seq<Bytes>

    constructor ()
      ensures chunks == []
    {
      chunks := [];
    }

    /** `handler.write`: keeps a copy of the buffer. */
    method Write(buf: Bytes)
      modifies this
      ensures chunks == old(chunks) + [buf]
    {
      chunks := chunks + [buf];
    }

    /** `getOutput`: the chunks copied one after another into one array,
        then decoded; the UTF-8 decoder is a parameter. */
    method GetOutput(decode: Bytes -> string) returns (s: string)
      ensures s == decode(Flatten(chunks))
    {
      var totalLength := TotalLength(chunks);
      var result := new Byte[totalLength](_ => 0);
      CopyChunks(chunks, result);
      s := decode(result[..]);
    }

    /** `clear` */
    method Clear()
      modifies this
      ensures chunks == []
    {
      chunks := [];
    }
  }

  /** The pipe-mode stdin: the encoded stdin text read from a moving offset. */
  class PipeStdin {
    const bytes: Bytes
    var offset: nat
    /** The bytes handed out so far. */
    ghost var consumed: Bytes

    ghost predicate Valid()
      reads this
    {
      offset <= |bytes| && consumed == bytes[..offset]
    }

    /** Absent or empty stdin text reads as an empty stream. */
    constructor (stdinData: Option<string>, encode: string -> Bytes)
      ensures Valid() && offset == 0
      ensures bytes == if stdinData.Some? && stdinData.value != "" then encode(stdinData.value) else []
    {
      bytes := if stdinData.Some? && stdinData.value != "" then encode(stdinData.value) else [];
      offset := 0;
      consumed := [];
    }

    /** `blockingRead(len)`: at most `len` of the remaining bytes. */
    method BlockingRead(len: nat) returns (r: Bytes)
      requires Valid()
      modifies this
      ensures Valid()
      ensures |r| == if len <= |bytes| - old(offset) then len else |bytes| - old(offset)
      ensures consumed == old(consumed) + r
    {
      var remaining := |bytes| - offset;
      if remaining <= 0 {
        return [];
      }
      var toRead := if len <= remaining then len else remaining;
      r := bytes[offset..offset + toRead];
      assert bytes[..offset + toRead] == bytes[..offset] + r;
      offset := offset + toRead;
      consumed := consumed + r;
    }
  }

  /** The stdin installed for a run. */
  datatype StdinHandler =
    | Interactive(worker: StdinBuffer.WorkerStdinBuffer)
    | Pipe(reader: PipeStdin)

  /** The stdin choice in `getWasiImports`: interactive exactly when a shared buffer is supplied. */
  method InstallStdin(stdinData: Option<string>, stdinBuffer: Option<StdinBuffer.SharedStdin>, encode: string -> Bytes)
    returns (h: StdinHandler)
    ensures h.Interactive? <==> stdinBuffer.Some?
    ensures h.Interactive? ==> fresh(h.worker) && h.worker.buffer == stdinBuffer.value
    ensures h.Pipe? ==> fresh(h.reader) && h.reader.Valid() && h.reader.offset == 0
    ensures h.Pipe? ==> h.reader.bytes == if stdinData.Some? && stdinData.value != "" then encode(stdinData.value) else []
  {
    if stdinBuffer.Some? {
      var w := new StdinBuffer.WorkerStdinBuffer(stdinBuffer.value);
      return Interactive(w);
    }
    var p := new PipeStdin(stdinData, encode);
    return Pipe(p);
  }

  /** How the run of the command ended: its exit code, or the message of the
      error that interrupted loading or running it. */
  datatype RunOutcome = Exited(code: int) | Failed(message: string)

  /** `executeWasmCommandImpl` after the run: the captured output, and on a
      failure exit code 1 with the error appended to the captured stderr. */
  method ExecutionResult(commandName: string, stdoutCapture: OutputCapture, stderrCapture: OutputCapture,
                         outcome: RunOutcome, decode: Bytes -> string) returns (r: CommandOutput)
    ensures r.stdout == decode(Flatten(stdoutCapture.chunks))
    ensures outcome.Exited? ==> r.exitCode == outcome.code && r.stderr == decode(Flatten(stderrCapture.chunks))
    ensures outcome.Failed? ==> r.exitCode == 1
    ensures outcome.Failed? ==> r.stderr == decode(Flatten(stderrCapture.chunks)) + "\nError executing " + commandName + ": " + outcome.message
  {
    var out := stdoutCapture.GetOutput(decode);
    var err := stderrCapture.GetOutput(decode);
    match outcome {
      case Exited(code) =>
        r := CommandOutput(out, err, code);
      case Failed(message) =>
        r := CommandOutput(out, err + "\nError executing " + commandName + ": " + message, 1);
    }
  }
}
