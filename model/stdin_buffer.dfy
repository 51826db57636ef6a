/** The shared stdin slot between the main thread and the command worker:
    a status cell, a length cell and a fixed data area. The two threads are
    modelled sequentially; the worker's wait while the slot is `WAITING` is
    a precondition of its read. */
module StdinBuffer {
  import opened Wrappers
  import opened Text

  datatype Status = Waiting | DataAvailable | Eof

  /** The numbers stored in the status cell. */
  function StatusCode(s: Status): (c: int)
    ensures 0 <= c <= 2
  {
    match s
    case Waiting => 0
    case DataAvailable => 1
    case Eof => 2
  }

  const DefaultSize: nat := 65536

  /** The slot as a value: status, length and the whole data area. */
  datatype Slot = Slot(status: Status, length: nat, data: Bytes)

  predicate SlotValid(s: Slot) {
    s.length <= |s.data|
  }

  /** `write`: refused when the data does not fit; otherwise the data goes to
      the front of the area, whatever was unread before. */
  function WriteSlot(s: Slot, d: Bytes): (r: Result<Slot, string>)
    ensures r.Err? <==> |d| > |s.data|
    ensures r.Ok? ==> SlotValid(r.value) && r.value.status == DataAvailable && r.value.length == |d|
    ensures r.Ok? ==> |r.value.data| == |s.data| && r.value.data[..|d|] == d && r.value.data[|d|..] == s.data[|d|..]
  {
    if |d| > |s.data| then Err("Data too large: " + Decimal(|d|) + " > " + Decimal(|s.data|))
    else Ok(Slot(DataAvailable, |d|, d + s.data[|d|..]))
  }

  /** `sendEOF` */
  function EofSlot(s: Slot): Slot {
    s.(status := Eof)
  }

  /** `blockingRead(maxLen)` once the slot is not waiting: the reply and the slot after it. */
  function ReadSlot(s: Slot, maxLen: nat): (r: (Slot, Bytes))
    requires SlotValid(s) && s.status != Waiting
    ensures SlotValid(r.0) && r.0.data == s.data && r.0.length == s.length
    ensures s.status == Eof ==> r.0.status == Eof && r.1 == []
    ensures s.status == DataAvailable ==> r.0.status == Waiting
    ensures s.status == DataAvailable ==> |r.1| == (if s.length <= maxLen then s.length else maxLen)
    ensures s.status == DataAvailable ==> r.1 == s.data[..|r.1|]
  {
    if s.status == Eof then (s, [])
    else
      var n := if s.length <= maxLen then s.length else maxLen;
      (s.(status := Waiting), s.data[..n])
  }

  /** A read after a write returns the first `min(|d|, maxLen)` bytes of `d`
      and the slot waits again; the rest of `d` is lost. */
  lemma ReadAfterWrite(s: Slot, d: Bytes, maxLen: nat)
    requires WriteSlot(s, d).Ok?
    ensures ReadSlot(WriteSlot(s, d).value, maxLen).1 == d[..if |d| <= maxLen then |d| else maxLen]
    ensures ReadSlot(WriteSlot(s, d).value, maxLen).0.status == Waiting
  {
    var w := WriteSlot(s, d).value;
    assert w.data[..|d|] == d;
  }

  /** A second write before a read replaces the first message. */
  lemma SecondWriteOverwrites(s: Slot, d1: Bytes, d2: Bytes, maxLen: nat)
    requires WriteSlot(s, d1).Ok? && WriteSlot(WriteSlot(s, d1).value, d2).Ok?
    ensures ReadSlot(WriteSlot(WriteSlot(s, d1).value, d2).value, maxLen).1 == d2[..if |d2| <= maxLen then |d2| else maxLen]
  {
    ReadAfterWrite(WriteSlot(s, d1).value, d2, maxLen);
  }

  /** The replies to a sequence of reads from a slot that is never written in between. */
  function ReadsFrom(s: Slot, lengths: seq<nat>): seq<Bytes>
    requires SlotValid(s)
    decreases |lengths|
  {
    if |lengths| == 0 || s.status == Waiting then []
    else [ReadSlot(s, lengths[0]).1] + ReadsFrom(ReadSlot(s, lengths[0]).0, lengths[1..])
  }

  /** After EOF every read returns empty and the slot stays at EOF. */
  lemma {:induction false} EofIsSticky(s: Slot, lengths: seq<nat>)
    requires SlotValid(s) && s.status == Eof
    ensures |ReadsFrom(s, lengths)| == |lengths|
    ensures forall i :: 0 <= i < |lengths| ==> ReadsFrom(s, lengths)[i] == []
    decreases |lengths|
  {
    if |lengths| > 0 {
      EofIsSticky(ReadSlot(s, lengths[0]).0, lengths[1..]);
    }
  }

  /** The shared memory: the status and length cells and the data area. */
  class SharedStdin {
    var status: Status
    var length: nat
    const data: array<Byte>

    ghost predicate Valid()
      reads this
    {
      length <= data.Length
    }

    function State(): Slot
      reads this, data
    {
      Slot(status, length, data[..])
    }

    constructor (size: nat)
      ensures Valid() && fresh(data) && data.Length == size && status == Waiting && length == 0
    {
      data := new Byte[size](_ => 0);
      status := Waiting;
      length := 0;
    }
  }

  /** The main thread's side: writes data and EOF. */
  class MainThreadStdinBuffer {
    const buffer: SharedStdin

    /** `new MainThreadStdinBuffer(size)`: waiting, with room for `size` bytes. */
    constructor (size: nat)
      ensures fresh(buffer) && fresh(buffer.data) && buffer.Valid()
      ensures buffer.status == Waiting && buffer.data.Length == size
    {
      buffer := new SharedStdin(size);
    }

    /** `new MainThreadStdinBuffer()` */
    constructor Default()
      ensures fresh(buffer) && fresh(buffer.data) && buffer.Valid()
      ensures buffer.status == Waiting && buffer.data.Length == DefaultSize
    {
      buffer := new SharedStdin(DefaultSize);
    }

    /** `getBuffer` */
    function GetBuffer(): SharedStdin {
      buffer
    }

    /** `write`: the error is the exception the source throws. */
    method Write(d: Bytes) returns (r: Result<(), string>)
      requires buffer.Valid()
      modifies buffer, buffer.data
      ensures buffer.Valid()
      ensures WriteSlot(old(buffer.State()), d).Err? ==>
        r == Err(WriteSlot(old(buffer.State()), d).error) && buffer.State() == old(buffer.State())
      ensures WriteSlot(old(buffer.State()), d).Ok? ==>
        r == Ok(()) && buffer.State() == WriteSlot(old(buffer.State()), d).value
    {
      if |d| > buffer.data.Length {
        return Err("Data too large: " + Decimal(|d|) + " > " + Decimal(buffer.data.Length));
      }
      var i := 0;
      while i < |d|
        invariant 0 <= i <= |d|
        invariant buffer.data[..i] == d[..i]
        invariant buffer.data[i..] == old(buffer.data[i..])
      {
        buffer.data[i] := d[i];
        i := i + 1;
        assert buffer.data[i..] == old(buffer.data[i..]) by {
          assert forall k :: i <= k < buffer.data.Length ==> buffer.data[k] == old(buffer.data[k]);
        }
      }
      buffer.length := |d|;
      buffer.status := DataAvailable;
      assert buffer.data[..] == d + old(buffer.data[..])[|d|..] by {
        assert buffer.data[..] == buffer.data[..|d|] + buffer.data[|d|..];
      }
      return Ok(());
    }

    /** `writeString`: the UTF-8 encoder is a parameter. */
    method WriteString(str: string, encode: string -> Bytes) returns (r: Result<(), string>)
      requires buffer.Valid()
      modifies buffer, buffer.data
      ensures buffer.Valid()
      ensures WriteSlot(old(buffer.State()), encode(str)).Err? ==>
        r.Err? && buffer.State() == old(buffer.State())
      ensures WriteSlot(old(buffer.State()), encode(str)).Ok? ==>
        r == Ok(()) && buffer.State() == WriteSlot(old(buffer.State()), encode(str)).value
    {
      r := Write(encode(str));
    }

    /** `sendEOF` */
    method SendEof()
      requires buffer.Valid()
      modifies buffer
      ensures buffer.Valid()
      ensures buffer.State() == EofSlot(old(buffer.State()))
    {
      buffer.status := Eof;
    }
  }

  /** The worker's side: blocking reads. */
  class WorkerStdinBuffer {
    const buffer: SharedStdin

    constructor (buffer: SharedStdin)
      ensures this.buffer == buffer
    {
      this.buffer := buffer;
    }

    /** `blockingRead(maxLen)`; the source waits while the status is
        `WAITING`, which is the precondition here. */
    method BlockingRead(maxLen: nat) returns (r: Bytes)
      requires buffer.Valid() && buffer.status != Waiting
      modifies buffer
      ensures buffer.Valid()
      ensures (buffer.State(), r) == ReadSlot(old(buffer.State()), maxLen)
    {
      if buffer.status == Eof {
        return [];
      }
      var readLength := if buffer.length <= maxLen then buffer.length else maxLen;
      r := buffer.data[..readLength];
      buffer.status := Waiting;
    }
  }
}
