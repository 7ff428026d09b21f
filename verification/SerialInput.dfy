/** From the host's bytes to `radioTxBuffer`: escape characters are held back, then replayed or taken as the way into command mode. */
module SerialInput {
  import opened Basics
  import opened CircularBuffer

  const RADIO_TX_SIZE := 3072
  const MAX_ESCAPE_CHARACTERS := 3
  const ESCAPE_CHARACTER: byte := 0x2B   // '+'

  /**
   `buffer` is the content of `radioTxBuffer`, `drained` what the radio has cut
   from it, `pending` the escape characters held back.  `stream` is all the
   host sent outside command mode, less each +++ that entered it.
   */
  datatype Line = Line(buffer: seq<byte>, drained: seq<byte>, pending: nat, stream: seq<byte>, commandMode: bool)

  function Escapes(n: nat): (s: seq<byte>)
    ensures |s| == n && forall k :: 0 <= k < n ==> s[k] == ESCAPE_CHARACTER
  {
    if n == 0 then [] else Escapes(n - 1) + [ESCAPE_CHARACTER]
  }

  /** Push bytes one after the other. */
  function Pushed(buffer: seq<byte>, bytes: seq<byte>): seq<byte> {
    if bytes == [] then buffer
    else Kept(Pushed(buffer, bytes[..|bytes| - 1]) + [bytes[|bytes| - 1]], RADIO_TX_SIZE)
  }

  function Replay(l: Line): Line {
    l.(buffer := Pushed(l.buffer, Escapes(l.pending)), pending := 0)
  }

  /** One byte from the host; `quiet` is the timing test that makes a '+' an escape character. */
  function Arrive(l: Line, b: byte, quiet: bool): Line {
    if b == ESCAPE_CHARACTER && quiet then
      if l.pending + 1 == MAX_ESCAPE_CHARACTERS then
        l.(pending := 0, commandMode := true, stream := Shortened(l.stream, 2))
      else
        l.(pending := l.pending + 1, stream := l.stream + [b])
    else
      var r := Replay(l);
      r.(buffer := Kept(r.buffer + [b], RADIO_TX_SIZE), stream := l.stream + [b])
  }

  function Shortened(s: seq<byte>, n: nat): seq<byte> {
    if n <= |s| then s[..|s| - n] else []
  }

  datatype Event =
    | Byte(b: byte, quiet: bool)
    | EscapeTimeout
    | Drain(count: nat)
    | LeaveCommandMode

  predicate Allowed(l: Line, e: Event) {
    match e
    case Byte(_, _) => !l.commandMode && |l.buffer| < RADIO_TX_SIZE - MAX_ESCAPE_CHARACTERS
    case EscapeTimeout => l.pending > 0
    case Drain(count) => count <= |l.buffer|
    case LeaveCommandMode => l.commandMode
  }

  function Step(l: Line, e: Event): Line
    requires Allowed(l, e)
  {
    match e
    case Byte(b, quiet) => Arrive(l, b, quiet)
    case EscapeTimeout => Replay(l)
    case Drain(count) => l.(buffer := l.buffer[count..], drained := l.drained + l.buffer[..count])
    case LeaveCommandMode => l.(commandMode := false)
  }

  /** Nothing is lost, and escape characters are held back only while there is room to replay them. */
  predicate Inv(l: Line) {
    && l.drained + l.buffer + Escapes(l.pending) == l.stream
    && |l.buffer| < RADIO_TX_SIZE
    && l.pending < MAX_ESCAPE_CHARACTERS
    && (l.pending > 0 ==> !l.commandMode && |l.buffer| + 4 <= RADIO_TX_SIZE)
  }

  const SILENT := Line([], [], 0, [], false)

  /** The buffer has just been emptied, at power-up or when the link came up; escape characters may be held back. */
  predicate Emptied(l: Line) {
    && l.buffer == [] && l.drained == [] && l.stream == Escapes(l.pending)
    && l.pending < MAX_ESCAPE_CHARACTERS && (l.pending > 0 ==> !l.commandMode)
  }

  lemma {:induction false} PushedFits(buffer: seq<byte>, bytes: seq<byte>)
    requires |buffer| + |bytes| < RADIO_TX_SIZE
    ensures Pushed(buffer, bytes) == buffer + bytes
  {
    if bytes != [] {
      PushedFits(buffer, bytes[..|bytes| - 1]);
      assert bytes == bytes[..|bytes| - 1] + [bytes[|bytes| - 1]];
    } else {
      assert buffer + bytes == buffer;
    }
  }

  lemma Snoc(s: seq<byte>, pending: nat, b: byte)
    requires b == ESCAPE_CHARACTER
    ensures s + Escapes(pending) + [b] == s + Escapes(pending + 1)
  {
    assert Escapes(pending + 1) == Escapes(pending) + [b];
  }

  lemma OrdinaryInv(l: Line, b: byte)
    requires Inv(l) && Allowed(l, Byte(b, false))
    ensures Inv(Arrive(l, b, false)) && Arrive(l, b, false).stream == l.stream + [b]
  {
    PushedFits(l.buffer, Escapes(l.pending));
    var l' := Arrive(l, b, false);
    assert l'.buffer == l.buffer + Escapes(l.pending) + [b];
    Regroup(l.drained, l.buffer, Escapes(l.pending), [b]);
    assert Escapes(0) == [];
  }

  lemma Regroup(s: seq<byte>, t: seq<byte>, u: seq<byte>, v: seq<byte>)
    ensures s + (t + u + v) == s + t + u + v
  {
  }

  lemma CommandInv(l: Line)
    requires Inv(l) && !l.commandMode && l.pending == 2
    ensures Inv(Arrive(l, ESCAPE_CHARACTER, true))
    ensures l.stream + [ESCAPE_CHARACTER] == Arrive(l, ESCAPE_CHARACTER, true).stream + Escapes(3)
  {
    var sent := l.drained + l.buffer;
    assert Shortened(l.stream, 2) == sent;
    Snoc(sent, 2, ESCAPE_CHARACTER);
    assert Escapes(0) == [];
  }

  lemma ArriveInv(l: Line, b: byte, quiet: bool)
    requires Inv(l) && Allowed(l, Byte(b, quiet))
    ensures var l' := Arrive(l, b, quiet);
            && Inv(l')
            && l.stream + [b] == if l'.commandMode then l'.stream + Escapes(3) else l'.stream
  {
    if b == ESCAPE_CHARACTER && quiet {
      if l.pending == 2 { CommandInv(l); } else { Snoc(l.drained + l.buffer, l.pending, b); }
    } else {
      OrdinaryInv(l, b);
    }
  }

  lemma StepInv(l: Line, e: Event)
    requires Inv(l) && Allowed(l, e)
    ensures Inv(Step(l, e))
  {
    match e
    case Byte(b, quiet) => ArriveInv(l, b, quiet);
    case EscapeTimeout =>
      PushedFits(l.buffer, Escapes(l.pending));
      assert l.drained + (l.buffer + Escapes(l.pending)) == l.stream;
    case Drain(count) =>
      assert l.drained + l.buffer[..count] + l.buffer[count..] == l.drained + l.buffer;
    case LeaveCommandMode =>
  }

  ghost predicate Run(events: seq<Event>, lines: seq<Line>) {
    && |lines| == |events| + 1 && Emptied(lines[0])
    && forall k :: 0 <= k < |events| ==> Allowed(lines[k], events[k]) && lines[k + 1] == Step(lines[k], events[k])
  }

  /**
   Main result.  Over every run, what the radio was given, then what waits in
   `radioTxBuffer` and the escape characters still held back, is exactly what the
   host sent, less each +++ that entered command mode; and the buffer never fills
   to head == tail.
   */
  lemma {:induction false} EscapeTransparency(events: seq<Event>, lines: seq<Line>, k: nat)
    requires Run(events, lines) && k <= |events|
    ensures lines[k].drained + lines[k].buffer + Escapes(lines[k].pending) == lines[k].stream
    ensures |lines[k].buffer| < RADIO_TX_SIZE
    ensures lines[k].pending > 0 ==> |lines[k].buffer| + 4 <= RADIO_TX_SIZE
    ensures Inv(lines[k])
  {
    if k > 0 {
      EscapeTransparency(events, lines, k - 1);
      StepInv(lines[k - 1], events[k - 1]);
    }
  }

  /** Bytes leave the stream only escape characters at a time, on entry to command mode. */
  lemma OnlyEscapesAreDropped(events: seq<Event>, lines: seq<Line>, k: nat)
    requires Run(events, lines) && k < |events|
    ensures match events[k]
            case Byte(b, quiet) => lines[k].stream + [b] == lines[k + 1].stream + (if lines[k + 1].commandMode then Escapes(3) else [])
            case _ => lines[k + 1].stream == lines[k].stream
  {
    EscapeTransparency(events, lines, k);
    if events[k].Byte? { ArriveInv(lines[k], events[k].b, events[k].quiet); }
  }

  // ---------------------------------------------------------------------
  // processSerialInput
  // ---------------------------------------------------------------------

  function Arrivals(l: Line, bytes: seq<byte>, quiet: seq<bool>): Line
    requires |bytes| == |quiet|
  {
    if bytes == [] then l
    else Arrive(Arrivals(l, bytes[..|bytes| - 1], quiet[..|bytes| - 1]), bytes[|bytes| - 1], quiet[|bytes| - 1])
  }

  class SerialPort {
    const rx: Ring                    // serialReceiveBuffer
    const radioTx: Ring               // radioTxBuffer
    var escapeCharsReceived: nat
    var inCommandMode: bool
    ghost var drained: seq<byte>
    ghost var stream: seq<byte>

    ghost predicate Separate()
      reads this, rx, radioTx
    {
      && rx != radioTx && rx.data != radioTx.data
      && rx.Valid() && radioTx.Valid() && radioTx.data.Length == RADIO_TX_SIZE
    }

    ghost function View(): Line
      requires Separate()
      reads this, rx, radioTx, radioTx.data
    {
      Line(radioTx.Contents(), drained, escapeCharsReceived, stream, inCommandMode)
    }

    constructor (rxSize: nat)
      requires rxSize > 0
      ensures Separate() && View() == SILENT && rx.Contents() == []
      ensures fresh(rx) && fresh(radioTx) && fresh(rx.data) && fresh(radioTx.data)
    {
      rx := new Ring(rxSize);
      radioTx := new Ring(RADIO_TX_SIZE);
      escapeCharsReceived := 0;
      inCommandMode := false;
      drained, stream := [], [];
    }

    /** Move the escape characters held back into the buffer. */
    method ReplayEscapes()
      requires Separate() && Inv(View())
      modifies this`escapeCharsReceived, radioTx`head, radioTx.data
      ensures Separate() && View() == Replay(old(View()))
      ensures rx.Contents() == old(rx.Contents())
    {
      ghost var buffer, pending := radioTx.Contents(), escapeCharsReceived;
      PushedFits(buffer, Escapes(pending));
      assert buffer + Escapes(0) == buffer;
      while escapeCharsReceived != 0
        invariant Separate() && escapeCharsReceived <= pending
        invariant radioTx.Contents() == buffer + Escapes(pending - escapeCharsReceived)
      {
        Snoc(buffer, pending - escapeCharsReceived, ESCAPE_CHARACTER);
        escapeCharsReceived := escapeCharsReceived - 1;
        radioTx.Push(ESCAPE_CHARACTER);
      }
    }

    /** A byte that is not an escape character goes out, after those held back. */
    method PushOrdinary(incoming: byte)
      requires Separate() && Inv(View()) && Allowed(View(), Byte(incoming, false))
      modifies this`escapeCharsReceived, this`stream, radioTx`head, radioTx.data
      ensures Separate() && View() == Arrive(old(View()), incoming, false)
      ensures rx.Contents() == old(rx.Contents())
    {
      ReplayEscapes();
      radioTx.Push(incoming);
      stream := stream + [incoming];
    }

    /** An escape character is held back, or the third one enters command mode. */
    method HoldEscape()
      requires Separate() && Inv(View()) && Allowed(View(), Byte(ESCAPE_CHARACTER, true))
      modifies this`escapeCharsReceived, this`inCommandMode, this`stream
      ensures Separate() && View() == Arrive(old(View()), ESCAPE_CHARACTER, true)
      ensures rx.Contents() == old(rx.Contents())
    {
      escapeCharsReceived := escapeCharsReceived + 1;
      if escapeCharsReceived == MAX_ESCAPE_CHARACTERS {
        inCommandMode := true;
        escapeCharsReceived := 0;
        stream := Shortened(stream, 2);
      } else {
        stream := stream + [ESCAPE_CHARACTER];
      }
    }

    /** The body of the loop outside command mode: the next waiting byte. */
    method ProcessByte(quiet: bool)
      requires Separate() && Inv(View()) && rx.Contents() != []
      requires Allowed(View(), Byte(rx.Contents()[0], quiet))
      modifies this, rx`tail, radioTx`head, radioTx.data
      ensures Separate() && View() == Arrive(old(View()), old(rx.Contents()[0]), quiet) && Inv(View())
      ensures rx.Contents() == old(rx.Contents())[1..]
    {
      ghost var before, rest := View(), rx.Contents()[1..];
      ArriveInv(before, rx.Contents()[0], quiet);
      var incoming := rx.Pop();
      assert View() == before && rx.Contents() == rest;
      if incoming == ESCAPE_CHARACTER && quiet {
        HoldEscape();
      } else {
        PushOrdinary(incoming);
      }
    }

    /**
     The loop of `processSerialInput`.  `quiet[i]` is the timing test for the i-th
     waiting byte; after `limit` bytes a radio transaction completes and stops it.
     */
    method ProcessBytes(quiet: seq<bool>, limit: nat) returns (n: nat)
      requires Separate() && Inv(View()) && !inCommandMode && |quiet| == |rx.Contents()|
      modifies this, rx`tail, radioTx`head, radioTx.data
      ensures Separate() && Inv(View()) && n <= |quiet| && rx.Contents() == old(rx.Contents())[n..]
      ensures View() == Arrivals(old(View()), old(rx.Contents())[..n], quiet[..n])
      ensures n == |quiet| || n == limit || inCommandMode || |radioTx.Contents()| >= RADIO_TX_SIZE - MAX_ESCAPE_CHARACTERS
    {
      ghost var waiting, before := rx.Contents(), View();
      n := 0;
      while !inCommandMode && rx.AvailableBytes() != 0
            && radioTx.AvailableBytes() < RADIO_TX_SIZE - MAX_ESCAPE_CHARACTERS && n != limit
        invariant Separate() && Inv(View()) && n <= |waiting|
        invariant rx.Contents() == waiting[n..]
        invariant View() == Arrivals(before, waiting[..n], quiet[..n])
        decreases |waiting| - n
      {
        OneArrival(before, waiting, quiet, n);
        ProcessByte(quiet[n]);
        n := n + 1;
      }
    }

    /** `processSerialInput` outside command mode; `escapeTimeout` is the timing test after the loop. */
    method ProcessSerialInput(quiet: seq<bool>, limit: nat, escapeTimeout: bool) returns (n: nat)
      requires Separate() && Inv(View()) && !inCommandMode && |quiet| == |rx.Contents()|
      modifies this, rx`tail, radioTx`head, radioTx.data
      ensures Separate() && Inv(View()) && n <= |quiet| && rx.Contents() == old(rx.Contents())[n..]
      ensures var l := Arrivals(old(View()), old(rx.Contents())[..n], quiet[..n]);
              View() == if !l.commandMode && escapeTimeout && |quiet| - n < RADIO_TX_SIZE - MAX_ESCAPE_CHARACTERS then Replay(l) else l
    {
      n := ProcessBytes(quiet, limit);
      if inCommandMode {
        return;
      }
      if escapeCharsReceived != 0 && escapeTimeout && rx.AvailableBytes() < RADIO_TX_SIZE - MAX_ESCAPE_CHARACTERS {
        StepInv(View(), EscapeTimeout);
        ReplayEscapes();
      } else {
        assert Pushed(radioTx.Contents(), []) == radioTx.Contents();
      }
    }
  }

  lemma OneArrival(l: Line, bytes: seq<byte>, quiet: seq<bool>, n: nat)
    requires |bytes| == |quiet| && n < |bytes|
    ensures Arrivals(l, bytes[..n + 1], quiet[..n + 1]) == Arrive(Arrivals(l, bytes[..n], quiet[..n]), bytes[n], quiet[n])
    ensures bytes[n..] != [] && bytes[n..][0] == bytes[n] && bytes[n..][1..] == bytes[n + 1..]
  {
    assert bytes[..n + 1][..n] == bytes[..n] && quiet[..n + 1][..n] == quiet[..n];
  }
}
