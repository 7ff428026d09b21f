/** The serial and radio byte buffers: arrays with a head and a tail index that wrap around. */
module CircularBuffer {
  import opened Basics

  /** The bytes from `tail` up to `head`, around the end of the array. */
  function Queue(data: seq<byte>, head: nat, tail: nat): (q: seq<byte>)
    requires head < |data| && tail < |data|
    ensures |q| < |data|
    ensures |q| == if head >= tail then head - tail else |data| - tail + head
    ensures forall k :: 0 <= k < |q| ==> q[k] == data[Wrap(tail + k, |data|)]
  {
    if head >= tail then data[tail..head] else data[tail..] + data[..head]
  }

  /** `i % size` for an index that has wrapped at most once. */
  function Wrap(i: nat, size: nat): nat {
    if i < size then i else i - size
  }

  lemma WrapIsRemainder(i: nat, size: nat)
    requires i < 2 * size
    ensures i % size == Wrap(i, size)
  {
    var q := i / size;
    assert i == q * size + i % size;
    assert q >= 2 ==> (q - 2) * size >= 0;
    assert q == 0 || q == 1;
  }

  /** `index % sizeof(buffer)`. */
  method Wrapped(index: nat, size: nat) returns (w: nat)
    requires index < 2 * size
    ensures w == Wrap(index, size)
  {
    WrapIsRemainder(index, size);
    return index % size;
  }

  /** What a buffer of `size` cells keeps of a stream: all of it, or only what follows the first `size` bytes. */
  function Kept(stream: seq<byte>, size: nat): seq<byte> {
    if |stream| < size then stream else stream[size..]
  }

  /** Bytes `serialBufferOutput` prints first: when fewer than 32 cells would be left, all that the host takes. */
  function Printed(queued: nat, length: nat, hostTakes: nat, size: nat): (n: nat)
    ensures n <= queued
  {
    if size - queued < length + 32 then if hostTakes < queued then hostTakes else queued
    else 0
  }

  function AfterOutput(queue: seq<byte>, bytes: seq<byte>, hostTakes: nat, size: nat): seq<byte> {
    Kept(queue[Printed(|queue|, |bytes|, hostTakes, size)..] + bytes, size)
  }

  /** Storing bytes at consecutive wrapped cells from `head` appends them to the queue. */
  lemma Stored(data: seq<byte>, data': seq<byte>, head: nat, tail: nat, bytes: seq<byte>)
    requires |data| == |data'| && head < |data| && tail < |data| && |bytes| <= |data|
    requires forall k :: 0 <= k < |bytes| ==> data'[Wrap(head + k, |data|)] == bytes[k]
    requires forall i :: 0 <= i < |data| && Wrap(i + |data| - head, |data|) >= |bytes| ==> data'[i] == data[i]
    ensures Queue(data', Wrap(head + |bytes|, |data|), tail) == Kept(Queue(data, head, tail) + bytes, |data|)
  {
    var n := |data|;
    var q := Queue(data, head, tail);
    var q' := Queue(data', Wrap(head + |bytes|, n), tail);
    var want := Kept(q + bytes, n);
    forall k | 0 <= k < |q'| ensures q'[k] == want[k] {
      if |q| + |bytes| >= n {
        assert q'[k] == data'[Wrap(head + (n + k - |q|), n)];
      } else if k < |q| {
      } else {
        assert q'[k] == data'[Wrap(head + (k - |q|), n)];
      }
    }
  }

  /** Moving the tail on drops the oldest bytes. */
  lemma Removed(data: seq<byte>, head: nat, tail: nat, count: nat)
    requires head < |data| && tail < |data| && count <= |Queue(data, head, tail)|
    ensures Queue(data, head, Wrap(tail + count, |data|)) == Queue(data, head, tail)[count..]
  {
    var q, q' := Queue(data, head, tail)[count..], Queue(data, head, Wrap(tail + count, |data|));
    assert |q| == |q'|;
    forall k | 0 <= k < |q| ensures q[k] == q'[k] {
      assert q[k] == data[Wrap(tail + (count + k), |data|)];
    }
  }

  /** Up to the end of the array the oldest bytes lie in one piece. */
  lemma Oldest(data: seq<byte>, head: nat, tail: nat, count: nat)
    requires head < |data| && tail < |data| && count <= |Queue(data, head, tail)| && tail + count <= |data|
    ensures Queue(data, head, tail)[..count] == data[tail..tail + count]
  {
  }

  /** Packet `p` with `bytes` written at `at`. */
  function Write(p: seq<byte>, at: nat, bytes: seq<byte>): (q: seq<byte>)
    requires at + |bytes| <= |p|
    ensures |q| == |p|
  {
    p[..at] + bytes + p[at + |bytes|..]
  }

  /** Two adjacent copies make one. */
  lemma TwoPieces(p: seq<byte>, at: nat, queue: seq<byte>, length: nat, count: nat)
    requires length <= count <= |queue| && at + count <= |p|
    ensures Write(Write(p, at, queue[..length]), at + length, queue[length..][..count - length]) == Write(p, at, queue[..count])
    ensures queue[length..][count - length..] == queue[count..]
  {
  }

  lemma OneByteMore(queue: seq<byte>, bytes: seq<byte>, n: nat)
    requires n < |bytes|
    ensures queue + bytes[..n] + [bytes[n]] == queue + bytes[..n + 1]
  {
  }

  class Ring {
    const data: array<byte>
    var head: nat
    var tail: nat

    ghost predicate Valid()
      reads this
    {
      head < data.Length && tail < data.Length
    }

    ghost function Contents(): seq<byte>
      requires Valid()
      reads this, data
    {
      Queue(data[..], head, tail)
    }

    constructor (size: nat)
      requires size > 0
      ensures Valid() && fresh(data) && data.Length == size && Contents() == []
    {
      data := new byte[size];
      head, tail := 0, 0;
    }

    /** `availableTXBytes` and its three siblings. */
    function AvailableBytes(): (n: nat)
      requires Valid()
      reads this, data
      ensures n == |Contents()|
    {
      if head >= tail then head - tail else data.Length - tail + head
    }

    /** `memcpy` into the buffer. */
    method CopyIn(at: nat, bytes: seq<byte>)
      requires at + |bytes| <= data.Length
      modifies data
      ensures forall i :: 0 <= i < data.Length ==>
        data[i] == if at <= i < at + |bytes| then bytes[i - at] else old(data[i])
    {
      forall k | 0 <= k < |bytes| {
        data[at + k] := bytes[k];
      }
    }

    /** The copy of `serialBufferOutput`: one piece, or two around the end of the array. */
    method Append(bytes: seq<byte>)
      requires Valid() && |bytes| <= data.Length
      modifies this`head, data
      ensures Valid() && Contents() == Kept(old(Contents()) + bytes, data.Length)
      ensures tail == old(tail)
    {
      ghost var before, from := data[..], head;
      var length := 0;
      if head + |bytes| > data.Length {
        length := data.Length - head;
        CopyIn(head, bytes[..length]);
        head := 0;
      }
      CopyIn(head, bytes[length..]);
      head := head + (|bytes| - length);
      head := Wrapped(head, data.Length);
      Stored(before, data[..], from, tail, bytes);
    }

    /** `buffer[head++] = b` and the wrap. */
    method Push(b: byte)
      requires Valid()
      modifies this`head, data
      ensures Valid() && Contents() == Kept(old(Contents()) + [b], data.Length)
      ensures tail == old(tail)
    {
      ghost var before, from := data[..], head;
      data[head] := b;
      head := head + 1;
      head := Wrapped(head, data.Length);
      Stored(before, data[..], from, tail, [b]);
    }

    /** A push that leaves a free cell. */
    method PushFree(b: byte)
      requires Valid() && AvailableBytes() + 1 < data.Length
      modifies this`head, data
      ensures Valid() && Contents() == old(Contents()) + [b]
    {
      Push(b);
    }

    /** `buffer[tail++]` and the wrap. */
    method Pop() returns (b: byte)
      requires Valid() && head != tail
      modifies this`tail
      ensures Valid() && old(Contents()) == [b] + Contents()
    {
      b := data[tail];
      tail := tail + 1;
      tail := Wrapped(tail, data.Length);
    }

    /** `buffer[(tail + n) % size]`. */
    method Peek(n: nat) returns (b: byte)
      requires Valid() && n < AvailableBytes()
      ensures b == Contents()[n]
    {
      var index := Wrapped(tail + n, data.Length);
      return data[index];
    }

    /**
     The receive loop of `updateSerial`: bytes waiting at the port move into
     the buffer, up to one less than the free space; `limit` bytes arrive
     before a radio transaction completes.
     */
    method ReceiveSerial(waiting: seq<byte>, limit: nat) returns (n: nat)
      requires Valid()
      modifies this`head, data
      ensures Valid() && n <= |waiting| && Contents() == old(Contents()) + waiting[..n]
      ensures n == |waiting| || n == limit || |Contents()| == data.Length - 1
    {
      ghost var queue := Contents();
      var bufferSpace := data.Length - 1 - AvailableBytes();
      n := 0;
      while bufferSpace != 0 && n < |waiting| && n != limit
        invariant Valid() && n <= |waiting|
        invariant Contents() == queue + waiting[..n] && bufferSpace == data.Length - 1 - |queue| - n
        decreases bufferSpace
      {
        bufferSpace := bufferSpace - 1;
        PushFree(waiting[n]);
        OneByteMore(queue, waiting, n);
        n := n + 1;
      }
    }

    /** `outputSerialData(true)`; the host takes `hostTakes` bytes before it lowers CTS. */
    method OutputSerialData(hostTakes: nat) returns (printed: seq<byte>)
      requires Valid()
      modifies this`tail
      ensures Valid() && old(Contents()) == printed + Contents()
      ensures |printed| == if hostTakes < old(|Contents()|) then hostTakes else old(|Contents()|)
    {
      printed := [];
      var dataBytes := AvailableBytes();
      while dataBytes != 0 && |printed| < hostTakes
        invariant Valid() && dataBytes == |Contents()|
        invariant old(Contents()) == printed + Contents() && |printed| <= hostTakes
      {
        dataBytes := dataBytes - 1;
        var b := Pop();
        printed := printed + [b];
      }
    }

    /** `serialBufferOutput`; the host takes up to `hostTakes` bytes of what is printed to make room. */
    method SerialBufferOutput(bytes: seq<byte>, hostTakes: nat) returns (printed: seq<byte>)
      requires Valid() && |bytes| <= data.Length
      modifies this`head, this`tail, data
      ensures Valid() && printed <= old(Contents())
      ensures |printed| == Printed(old(|Contents()|), |bytes|, hostTakes, data.Length)
      ensures Contents() == AfterOutput(old(Contents()), bytes, hostTakes, data.Length)
    {
      ghost var queue := Contents();
      printed := [];
      if data.Length - AvailableBytes() < |bytes| + 32 {
        printed := OutputSerialData(hostTakes);
      }
      ghost var rest := Contents();
      Append(bytes);
      assert queue[|printed|..] == rest;
    }

    /** `memcpy` out of the buffer. */
    method CopyOut(from: nat, count: nat, packet: array<byte>, at: nat)
      requires packet != data && from + count <= data.Length && at + count <= packet.Length
      modifies packet
      ensures data[..] == old(data[..]) && packet[..] == Write(old(packet[..]), at, data[..][from..from + count])
    {
      forall k | 0 <= k < count {
        packet[at + k] := data[from + k];
      }
      assert data[..] == old(data[..]);
    }

    /** One copy from the tail on. */
    method TakePiece(count: nat, packet: array<byte>, at: nat)
      requires Valid() && packet != data && count <= AvailableBytes()
      requires tail + count <= data.Length && at + count <= packet.Length
      modifies this`tail, packet
      ensures Valid() && Contents() == old(Contents())[count..] && tail == Wrap(old(tail) + count, data.Length)
      ensures packet[..] == Write(old(packet[..]), at, old(Contents())[..count])
    {
      ghost var cells, queue, rest, oldest, p := data[..], Contents(), Contents()[count..], Contents()[..count], packet[..];
      Removed(cells, head, tail, count);
      Oldest(cells, head, tail, count);
      assert cells[tail..tail + count] == oldest;
      CopyOut(tail, count, packet, at);
      assert packet[..] == Write(p, at, oldest);
      tail := Wrapped(tail + count, data.Length);
      assert data[..] == cells;
      assert Contents() == rest;
    }

    /** The piece up to the end of the array, when the bytes wrap around it. */
    method TakeFirstPiece(count: nat, packet: array<byte>, at: nat) returns (length: nat)
      requires Valid() && packet != data && count <= AvailableBytes() && at + count <= packet.Length
      modifies this`tail, packet
      ensures Valid() && length <= count && tail + (count - length) <= data.Length
      ensures Contents() == old(Contents())[length..]
      ensures packet[..] == Write(old(packet[..]), at, old(Contents())[..length])
    {
      length := 0;
      if tail + count > data.Length {
        length := data.Length - tail;
        TakePiece(length, packet, at);
      }
    }

    /** The copy of `readyOutgoingPacket`: the oldest bytes move to `packet`, in one piece or two. */
    method Take(count: nat, packet: array<byte>, at: nat)
      requires Valid() && packet != data && count <= AvailableBytes() && at + count <= packet.Length
      modifies this`tail, packet
      ensures Valid() && Contents() == old(Contents())[count..]
      ensures packet[..] == Write(old(packet[..]), at, old(Contents())[..count])
    {
      ghost var queue, p := Contents(), packet[..];
      var length := TakeFirstPiece(count, packet, at);
      TakePiece(count - length, packet, at + length);
      TwoPieces(p, at, queue, length, count);
    }

    /** `readyOutgoingPacket`: at most one frame of payload. */
    method ReadyOutgoingPacket(bytesToSend: nat, maxDatagramSize: nat, packet: array<byte>, headerBytes: nat) returns (sent: nat)
      requires Valid() && packet != data && bytesToSend <= AvailableBytes()
      requires headerBytes + maxDatagramSize <= packet.Length
      modifies this`tail, packet
      ensures Valid() && sent == (if bytesToSend > maxDatagramSize then maxDatagramSize else bytesToSend)
      ensures Contents() == old(Contents())[sent..]
      ensures packet[..] == Write(old(packet[..]), headerBytes, old(Contents())[..sent])
    {
      sent := if bytesToSend > maxDatagramSize then maxDatagramSize else bytesToSend;
      Take(sent, packet, headerBytes);
    }
  }

  // ---------------------------------------------------------------------
  // First in, first out
  // ---------------------------------------------------------------------

  /** Traffic through one buffer of `size` cells. */
  datatype Traffic = In(bytes: seq<byte>) | Out(count: nat)

  datatype Pipe = Pipe(queue: seq<byte>, given: seq<byte>, taken: seq<byte>)

  predicate Possible(p: Pipe, t: Traffic, size: nat) {
    match t
    case In(bytes) => |bytes| <= size
    case Out(count) => count <= |p.queue|
  }

  function Through(p: Pipe, t: Traffic, size: nat): Pipe
    requires Possible(p, t, size)
  {
    match t
    case In(bytes) => Pipe(Kept(p.queue + bytes, size), p.given + bytes, p.taken)
    case Out(count) => Pipe(p.queue[count..], p.given, p.taken + p.queue[..count])
  }

  /** A run, with the states it passes. */
  ghost predicate Run(traffic: seq<Traffic>, pipes: seq<Pipe>, size: nat) {
    && |pipes| == |traffic| + 1 && pipes[0] == Pipe([], [], [])
    && forall k :: 0 <= k < |traffic| ==> Possible(pipes[k], traffic[k], size) && pipes[k + 1] == Through(pipes[k], traffic[k], size)
  }

  /** Input k leaves at least one cell unused. */
  predicate LeavesRoom(p: Pipe, t: Traffic, size: nat) {
    t.In? ==> |p.queue| + |t.bytes| < size
  }

  /** All that was given is taken or waiting. */
  predicate Lossless(p: Pipe) {
    p.taken + p.queue == p.given
  }

  /** One more input or output keeps the stream whole exactly when an input leaves a free cell. */
  lemma ThroughExactly(p: Pipe, t: Traffic, size: nat)
    requires size > 0 && Possible(p, t, size) && Lossless(p) && |p.queue| < size
    ensures Lossless(Through(p, t, size)) <==> LeavesRoom(p, t, size)
    ensures |Through(p, t, size).queue| < size
  {
    match t
    case In(bytes) =>
      if LeavesRoom(p, t, size) { assert p.taken + (p.queue + bytes) == p.given + bytes; }
    case Out(count) =>
      assert p.queue == p.queue[..count] + p.queue[count..];
      assert p.taken + p.queue[..count] + p.queue[count..] == p.taken + p.queue;
  }

  /**
   The first input that fills the buffer loses data; until then every byte
   given is either taken or waiting, in order.
   */
  lemma {:induction false} FirstInFirstOut(traffic: seq<Traffic>, pipes: seq<Pipe>, size: nat, n: nat)
    requires size > 0 && Run(traffic, pipes, size) && n <= |traffic|
    requires forall k :: 0 <= k < n ==> LeavesRoom(pipes[k], traffic[k], size)
    ensures Lossless(pipes[n]) && |pipes[n].queue| < size
    ensures n < |traffic| ==> (Lossless(pipes[n + 1]) <==> LeavesRoom(pipes[n], traffic[n], size))
  {
    if n > 0 {
      FirstInFirstOut(traffic, pipes, size, n - 1);
      assert LeavesRoom(pipes[n - 1], traffic[n - 1], size);
      ThroughExactly(pipes[n - 1], traffic[n - 1], size);
    }
    if n < |traffic| {
      ThroughExactly(pipes[n], traffic[n], size);
    }
  }

  // ---------------------------------------------------------------------
  // Frames that passed the acceptance test
  // ---------------------------------------------------------------------

  /** The frame fills the free cells and nothing is printed to make room. */
  predicate ExactFit(queued: nat, length: nat, hostTakes: nat, size: nat) {
    length == size - queued && (hostTakes == 0 || queued == 0)
  }

  /** `serialBufferOutput` seen from the stream to the host. */
  function Output(p: Pipe, bytes: seq<byte>, hostTakes: nat, size: nat): Pipe {
    var n := Printed(|p.queue|, |bytes|, hostTakes, size);
    Pipe(AfterOutput(p.queue, bytes, hostTakes, size), p.given + bytes, p.taken + p.queue[..n])
  }

  /**
   A frame that passed the test of `validateDatagram`, which admits as many bytes
   as there are free cells, leaves the stream whole if and only if it is not an
   exact fit with nothing printed; then the whole buffer is lost.
   */
  lemma AcceptedFrameExactly(p: Pipe, bytes: seq<byte>, hostTakes: nat, size: nat)
    requires Lossless(p) && |p.queue| < size && |bytes| <= size - |p.queue|
    ensures Lossless(Output(p, bytes, hostTakes, size)) <==> !ExactFit(|p.queue|, |bytes|, hostTakes, size)
    ensures ExactFit(|p.queue|, |bytes|, hostTakes, size) ==> Output(p, bytes, hostTakes, size).queue == []
    ensures |Output(p, bytes, hostTakes, size).queue| < size
  {
    var n := Printed(|p.queue|, |bytes|, hostTakes, size);
    var rest := p.queue[n..] + bytes;
    if |rest| < size {
      assert p.taken + p.queue[..n] + rest == p.taken + p.queue + bytes;
    }
  }

  /** For a frame shorter than the buffer, which every frame is, the only such case is a host that takes nothing. */
  lemma ExactFitOfFrame(queued: nat, length: nat, hostTakes: nat, size: nat)
    requires length < size && length <= size - queued
    ensures ExactFit(queued, length, hostTakes, size) <==> length == size - queued && hostTakes == 0
  {
  }

  function Blank(n: nat): (s: seq<byte>)
    ensures |s| == n
  {
    if n == 0 then [] else Blank(n - 1) + [0]
  }

  /** k frames of 255 bytes delivered while the host holds CTS off. */
  function Unread(k: nat): Pipe {
    if k == 0 then Pipe([], [], []) else Output(Unread(k - 1), Blank(255), 0, 4096)
  }

  lemma {:induction false} UnreadGrows(k: nat)
    requires k <= 16
    ensures Lossless(Unread(k)) && |Unread(k).queue| == 255 * k
  {
    if k > 0 {
      UnreadGrows(k - 1);
      AcceptedFrameExactly(Unread(k - 1), Blank(255), 0, 4096);
    }
  }

  /** Sixteen such frames and one of 16 bytes, all accepted, and the 4096 bytes of serialTransmitBuffer are lost. */
  lemma ShortFramesOverfill()
    ensures forall k :: 0 <= k < 16 ==> |Blank(255)| <= 4096 - |Unread(k).queue|
    ensures |Unread(16).queue| == 4080 && |Blank(16)| <= 4096 - |Unread(16).queue|
    ensures Output(Unread(16), Blank(16), 0, 4096).queue == []
  {
    forall k | 0 <= k < 16 ensures |Blank(255)| <= 4096 - |Unread(k).queue| { UnreadGrows(k); }
    UnreadGrows(16);
    AcceptedFrameExactly(Unread(16), Blank(16), 0, 4096);
  }

  /** Nothing is printed from commandRXBuffer to make room: an accepted command is kept if and only if a cell stays free. */
  lemma AcceptedCommandExactly(queue: seq<byte>, bytes: seq<byte>, size: nat)
    requires |queue| < size && |bytes| <= size - |queue|
    ensures Kept(queue + bytes, size) == queue + bytes <==> |bytes| < size - |queue|
    ensures |bytes| == size - |queue| ==> Kept(queue + bytes, size) == []
  {
  }
}
