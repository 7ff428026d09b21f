/**
 Remote command responses over a virtual circuit: the sender cuts the queued
 response into frames, the receiver separates the text from the command-complete
 message that ends it.
 */
module CommandResponse {
  import opened Basics
  import opened CircularBuffer

  const START_OF_VC_SERIAL: byte := 0x02
  const VC_RADIO_HEADER_BYTES := 3
  const VC_SERIAL_HEADER_BYTES := 4
  const COMPLETE_BYTES := 5            // serial header and command status
  const COMMAND_TX_SIZE := 4096

  // ---------------------------------------------------------------------
  // The sender
  // ---------------------------------------------------------------------

  /** Position of the first start byte from `i` on, or `limit`. */
  function FirstStart(q: seq<byte>, i: nat, limit: nat): (r: nat)
    requires i <= limit <= |q|
    ensures i <= r <= limit
    ensures r < limit ==> q[r] == START_OF_VC_SERIAL
    ensures forall k :: i <= k < r ==> q[k] != START_OF_VC_SERIAL
    decreases limit - i
  {
    if i == limit || q[i] == START_OF_VC_SERIAL then i else FirstStart(q, i + 1, limit)
  }

  /** Bytes of the queue that go into the next frame, of which `maxLength` would fit. */
  function PieceLength(q: seq<byte>, maxLength: nat, vcMode: bool): nat
    requires maxLength >= 2 * COMPLETE_BYTES
  {
    if |q| <= maxLength then |q|
    else if !vcMode then maxLength
    else
      var most := maxLength - VC_SERIAL_HEADER_BYTES;
      if q[0] == START_OF_VC_SERIAL then most else FirstStart(q, most - COMPLETE_BYTES + 1, most)
  }

  class ResponseQueue {
    const commandTX: Ring
    const packet: array<byte>         // outgoingPacket

    constructor (packet: array<byte>)
      ensures this.packet == packet && fresh(commandTX) && fresh(commandTX.data)
      ensures commandTX.Valid() && commandTX.Contents() == []
    {
      this.packet := packet;
      commandTX := new Ring(COMMAND_TX_SIZE);
    }

    /** `readyOutgoingCommandPacket`: the piece leaves the queue for the frame. */
    method ReadyOutgoingCommandPacket(offset: nat, headerBytes: nat, maxDatagramSize: nat, vcMode: bool) returns (bytesToSend: nat)
      requires commandTX.Valid() && commandTX.data != packet
      requires maxDatagramSize >= offset + 2 * COMPLETE_BYTES && headerBytes + maxDatagramSize <= packet.Length
      modifies commandTX`tail, packet
      ensures commandTX.Valid()
      ensures bytesToSend == PieceLength(old(commandTX.Contents()), maxDatagramSize - offset, vcMode) <= maxDatagramSize - offset
      ensures commandTX.Contents() == old(commandTX.Contents())[bytesToSend..]
      ensures packet[..] == Write(old(packet[..]), headerBytes + offset, old(commandTX.Contents())[..bytesToSend])
    {
      ghost var q := commandTX.Contents();
      var maxLength := maxDatagramSize - offset;
      bytesToSend := commandTX.AvailableBytes();
      if bytesToSend > maxLength {
        bytesToSend := maxLength;
        if vcMode {
          bytesToSend := bytesToSend - VC_SERIAL_HEADER_BYTES;
          var first := commandTX.Peek(0);
          if first != START_OF_VC_SERIAL {
            bytesToSend := SearchStart(bytesToSend - COMPLETE_BYTES + 1, bytesToSend);
          }
        }
      }
      commandTX.Take(bytesToSend, packet, headerBytes + offset);
    }

    /** The loop that looks for the start of the command-complete message. */
    method SearchStart(from: nat, limit: nat) returns (length: nat)
      requires commandTX.Valid() && from <= limit <= commandTX.AvailableBytes()
      ensures length == FirstStart(commandTX.Contents(), from, limit)
    {
      length := from;
      while length < limit
        invariant from <= length <= limit
        invariant FirstStart(commandTX.Contents(), from, limit) == FirstStart(commandTX.Contents(), length, limit)
      {
        var b := commandTX.Peek(length);
        if b == START_OF_VC_SERIAL {
          return;
        }
        length := length + 1;
      }
    }
  }

  /** The payloads of the frames that empty the queue. */
  function Pieces(q: seq<byte>, maxLength: nat): seq<seq<byte>>
    requires maxLength >= 3 * COMPLETE_BYTES
    decreases |q|
  {
    if q == [] then []
    else
      var n := PieceLength(q, maxLength, true);
      [q[..n]] + Pieces(q[n..], maxLength)
  }

  // ---------------------------------------------------------------------
  // The receiver
  // ---------------------------------------------------------------------

  datatype Received = Received(text: seq<byte>, messages: seq<seq<byte>>)

  /** DATAGRAM_REMOTE_COMMAND_RESPONSE: the frame begins with the three header bytes, which go to the host with the text. */
  function SplitFrame(frame: seq<byte>): (r: (seq<byte>, seq<byte>))
    ensures r.0 + r.1 == frame
  {
    if |frame| >= COMPLETE_BYTES && frame[|frame| - COMPLETE_BYTES] == START_OF_VC_SERIAL
    then (frame[..|frame| - COMPLETE_BYTES], frame[|frame| - COMPLETE_BYTES..])
    else (frame, [])
  }

  /** Frames with these payloads, each behind `header`, as the host reads them. */
  function Deliver(pieces: seq<seq<byte>>, header: seq<byte>): Received
    requires |header| == VC_RADIO_HEADER_BYTES
  {
    if pieces == [] then Received([], [])
    else
      var (front, message) := SplitFrame(header + pieces[0]);
      var rest := Deliver(pieces[1..], header);
      var text := if |front| >= VC_RADIO_HEADER_BYTES then front[VC_RADIO_HEADER_BYTES..] else [];
      Received(text + rest.text, (if message == [] then [] else [message]) + rest.messages)
  }

  /** The receiver takes the end of this piece for a command-complete message. */
  predicate LooksComplete(piece: seq<byte>) {
    |piece| >= COMPLETE_BYTES && piece[|piece| - COMPLETE_BYTES] == START_OF_VC_SERIAL
  }

  predicate IsComplete(message: seq<byte>) {
    |message| == COMPLETE_BYTES && message[0] == START_OF_VC_SERIAL
  }

  lemma SplitPiece(header: seq<byte>, piece: seq<byte>)
    requires |header| == VC_RADIO_HEADER_BYTES && |piece| >= COMPLETE_BYTES
    ensures LooksComplete(piece) ==>
      SplitFrame(header + piece) == (header + piece[..|piece| - COMPLETE_BYTES], piece[|piece| - COMPLETE_BYTES..])
    ensures !LooksComplete(piece) ==> SplitFrame(header + piece) == (header + piece, [])
  {
    var frame := header + piece;
    assert frame[|frame| - COMPLETE_BYTES] == piece[|piece| - COMPLETE_BYTES];
    if LooksComplete(piece) {
      assert frame[..|frame| - COMPLETE_BYTES] == header + piece[..|piece| - COMPLETE_BYTES];
      assert frame[|frame| - COMPLETE_BYTES..] == piece[|piece| - COMPLETE_BYTES..];
    }
  }

  // ---------------------------------------------------------------------
  // Splitting and recovery
  // ---------------------------------------------------------------------

  /** The pieces but the last, and the text that is in the last one. */
  ghost predicate CutsText(pieces: seq<seq<byte>>, text: seq<byte>, message: seq<byte>, maxLength: nat) {
    && pieces != []
    && (forall k :: 0 <= k < |pieces| ==> COMPLETE_BYTES <= |pieces[k]| <= maxLength)
    && (var last := pieces[|pieces| - 1];
        && last[|last| - COMPLETE_BYTES..] == message
        && Concat(pieces[..|pieces| - 1]) + last[..|last| - COMPLETE_BYTES] == text)
  }

  lemma OneStep(text: seq<byte>, message: seq<byte>, maxLength: nat)
    requires maxLength >= 3 * COMPLETE_BYTES && IsComplete(message) && |text + message| > maxLength
    ensures var n := PieceLength(text + message, maxLength, true);
            && COMPLETE_BYTES <= n <= |text| && n <= maxLength
            && (text + message)[..n] == text[..n] && (text + message)[n..] == text[n..] + message
            && Pieces(text + message, maxLength) == [text[..n]] + Pieces(text[n..] + message, maxLength)
  {
  }

  /**
   For a response of any length the pieces put together are the response, each
   fits its frame, and the command-complete message lies whole in the last one.
   */
  lemma {:induction false} MessageIsNeverSplit(text: seq<byte>, message: seq<byte>, maxLength: nat)
    requires maxLength >= 3 * COMPLETE_BYTES && IsComplete(message)
    ensures CutsText(Pieces(text + message, maxLength), text, message, maxLength)
    ensures Concat(Pieces(text + message, maxLength)) == text + message
    decreases |text|
  {
    if |text + message| <= maxLength {
      LastPiece(text, message, maxLength);
    } else {
      var n := PieceLength(text + message, maxLength, true);
      OneStep(text, message, maxLength);
      MessageIsNeverSplit(text[n..], message, maxLength);
      CutsOneMore(text, n, Pieces(text[n..] + message, maxLength), message, maxLength);
    }
  }

  lemma LastPiece(text: seq<byte>, message: seq<byte>, maxLength: nat)
    requires maxLength >= 3 * COMPLETE_BYTES && IsComplete(message) && |text + message| <= maxLength
    ensures Pieces(text + message, maxLength) == [text + message]
    ensures CutsText([text + message], text, message, maxLength) && Concat([text + message]) == text + message
  {
    var q := text + message;
    assert q[..|q|] == q && q[|q|..] == [];
    assert Pieces(q[|q|..], maxLength) == [];
    var none: seq<seq<byte>> := [];
    assert [q][..0] == none && [q][1..] == none;
    assert Concat(none) == [] && Concat([q]) == q + Concat(none);
    assert q[..|q| - COMPLETE_BYTES] == text && q[|q| - COMPLETE_BYTES..] == message;
  }

  lemma ConcatFirst(first: seq<byte>, rest: seq<seq<byte>>)
    ensures Concat([first] + rest) == first + Concat(rest)
  {
    assert ([first] + rest)[1..] == rest;
  }

  lemma AllButLast(first: seq<byte>, pieces: seq<seq<byte>>)
    requires pieces != []
    ensures ([first] + pieces)[..|pieces|] == [first] + pieces[..|pieces| - 1]
    ensures ([first] + pieces)[|pieces|] == pieces[|pieces| - 1]
  {
  }

  lemma CutsOneMore(text: seq<byte>, n: nat, pieces: seq<seq<byte>>, message: seq<byte>, maxLength: nat)
    requires COMPLETE_BYTES <= n <= maxLength && n <= |text|
    requires CutsText(pieces, text[n..], message, maxLength) && Concat(pieces) == text[n..] + message
    ensures CutsText([text[..n]] + pieces, text, message, maxLength)
    ensures Concat([text[..n]] + pieces) == text + message
  {
    var first := text[..n];
    AllButLast(first, pieces);
    ConcatFirst(first, pieces);
    ConcatFirst(first, pieces[..|pieces| - 1]);
    Rejoined(text, n, Concat(pieces[..|pieces| - 1]), pieces[|pieces| - 1][..|pieces[|pieces| - 1]| - COMPLETE_BYTES]);
    Rejoined(text, n, text[n..], message);
  }

  lemma Rejoined(text: seq<byte>, n: nat, s: seq<byte>, t: seq<byte>)
    requires n <= |text|
    ensures s + t == text[n..] ==> (text[..n] + s) + t == text
    ensures s == text[n..] ==> text[..n] + (s + t) == text + t
  {
  }

  /** No piece but the last looks as if it ended with a command-complete message. */
  predicate Unambiguous(pieces: seq<seq<byte>>) {
    forall k :: 0 <= k < |pieces| - 1 ==> !LooksComplete(pieces[k])
  }

  lemma {:induction false} DeliveredCount(pieces: seq<seq<byte>>, header: seq<byte>)
    requires |header| == VC_RADIO_HEADER_BYTES
    requires forall k :: 0 <= k < |pieces| ==> |pieces[k]| >= COMPLETE_BYTES
    ensures |Deliver(pieces, header).messages| >= 1 <==> exists k :: 0 <= k < |pieces| && LooksComplete(pieces[k])
  {
    if pieces != [] {
      SplitPiece(header, pieces[0]);
      DeliveredCount(pieces[1..], header);
      assert forall k :: 1 <= k < |pieces| ==> pieces[k] == pieces[1..][k - 1];
      if k :| 0 <= k < |pieces[1..]| && LooksComplete(pieces[1..][k]) {
        assert LooksComplete(pieces[k + 1]);
      }
    }
  }

  lemma {:induction false} DeliverExactly(text: seq<byte>, message: seq<byte>, header: seq<byte>, pieces: seq<seq<byte>>, maxLength: nat)
    requires |header| == VC_RADIO_HEADER_BYTES && IsComplete(message)
    requires CutsText(pieces, text, message, maxLength)
    ensures Unambiguous(pieces) ==> Deliver(pieces, header) == Received(text, [message])
    ensures !Unambiguous(pieces) ==> |Deliver(pieces, header).messages| >= 2
    decreases |pieces|
  {
    if |pieces| == 1 {
      DeliverLast(text, message, header, pieces, maxLength);
    } else {
      var first, rest := pieces[0], pieces[1..];
      var last := rest[|rest| - 1];
      var text' := Concat(rest[..|rest| - 1]) + last[..|last| - COMPLETE_BYTES];
      assert pieces[..|pieces| - 1][1..] == rest[..|rest| - 1];
      assert text == first + text';
      assert CutsText(rest, text', message, maxLength);
      DeliverExactly(text', message, header, rest, maxLength);
      DeliveredCount(rest, header);
      LastLooksComplete(rest, text', message, maxLength);
      DeliverFirst(first, rest, header);
      assert pieces == [first] + rest;
    }
  }

  lemma DeliverLast(text: seq<byte>, message: seq<byte>, header: seq<byte>, pieces: seq<seq<byte>>, maxLength: nat)
    requires |header| == VC_RADIO_HEADER_BYTES && IsComplete(message) && |pieces| == 1
    requires CutsText(pieces, text, message, maxLength)
    ensures Unambiguous(pieces) && Deliver(pieces, header) == Received(text, [message])
  {
    SplitPiece(header, pieces[0]);
    LastLooksComplete(pieces, text, message, maxLength);
    assert pieces[1..] == [] && pieces[..0] == [];
    assert (header + text)[VC_RADIO_HEADER_BYTES..] == text;
    assert Deliver(pieces[1..], header) == Received([], []);
  }

  /** What one more piece before the others adds. */
  lemma DeliverFirst(first: seq<byte>, rest: seq<seq<byte>>, header: seq<byte>)
    requires |header| == VC_RADIO_HEADER_BYTES && |first| >= COMPLETE_BYTES && rest != []
    ensures Unambiguous([first] + rest) <==> !LooksComplete(first) && Unambiguous(rest)
    ensures var d, d' := Deliver(rest, header), Deliver([first] + rest, header);
            if LooksComplete(first) then |d'.messages| == |d.messages| + 1
            else d' == Received(first + d.text, d.messages)
  {
    var all := [first] + rest;
    SplitPiece(header, first);
    assert all[1..] == rest;
    assert forall k :: 0 <= k < |rest| ==> rest[k] == all[k + 1];
    assert (header + first)[VC_RADIO_HEADER_BYTES..] == first;
  }

  lemma LastLooksComplete(pieces: seq<seq<byte>>, text: seq<byte>, message: seq<byte>, maxLength: nat)
    requires IsComplete(message) && CutsText(pieces, text, message, maxLength)
    ensures LooksComplete(pieces[|pieces| - 1])
  {
    var last := pieces[|pieces| - 1];
    assert last[|last| - COMPLETE_BYTES] == last[|last| - COMPLETE_BYTES..][0];
  }

  /** Where the frame that starts with `text` ends, when text and message do not fit one frame. */
  function CutLength(text: seq<byte>, maxLength: nat): (n: nat)
    requires maxLength >= 3 * COMPLETE_BYTES && |text| + COMPLETE_BYTES > maxLength
    ensures COMPLETE_BYTES <= n <= |text|
  {
    var most := maxLength - VC_SERIAL_HEADER_BYTES;
    if text[0] == START_OF_VC_SERIAL then most else FirstStart(text, most - COMPLETE_BYTES + 1, most)
  }

  /** Positions in the text, from `start` on, where a frame ends and the next one begins. */
  function Cuts(text: seq<byte>, start: nat, maxLength: nat): (cuts: seq<nat>)
    requires maxLength >= 3 * COMPLETE_BYTES && start <= |text|
    ensures forall k :: 0 <= k < |cuts| ==> start + COMPLETE_BYTES <= cuts[k] <= |text|
    decreases |text| - start
  {
    if |text| - start + COMPLETE_BYTES <= maxLength then []
    else
      var cut := start + CutLength(text[start..], maxLength);
      [cut] + Cuts(text, cut, maxLength)
  }

  /** No frame before the last ends in five bytes of text that begin with a start byte. */
  predicate Clear(text: seq<byte>, start: nat, maxLength: nat)
    requires maxLength >= 3 * COMPLETE_BYTES && start <= |text|
  {
    NoneTorn(text, Cuts(text, start, maxLength))
  }

  predicate NoneTorn(text: seq<byte>, cuts: seq<nat>) {
    forall k :: 0 <= k < |cuts| && COMPLETE_BYTES <= cuts[k] <= |text| ==> text[cuts[k] - COMPLETE_BYTES] != START_OF_VC_SERIAL
  }

  lemma NoneTornOneMore(text: seq<byte>, cut: nat, rest: seq<nat>)
    requires COMPLETE_BYTES <= cut <= |text|
    ensures NoneTorn(text, [cut] + rest) <==> text[cut - COMPLETE_BYTES] != START_OF_VC_SERIAL && NoneTorn(text, rest)
  {
    var cuts := [cut] + rest;
    assert cuts[0] == cut;
    assert forall k :: 0 <= k < |rest| ==> rest[k] == cuts[k + 1];
  }

  lemma SameStart(text: seq<byte>, more: seq<byte>, i: nat, limit: nat)
    requires i <= limit <= |text|
    ensures FirstStart(text + more, i, limit) == FirstStart(text, i, limit)
  {
    assert forall k :: 0 <= k < |text| ==> (text + more)[k] == text[k];
  }

  /** The pieces are cut where the text alone says. */
  lemma CutIsPiece(text: seq<byte>, message: seq<byte>, maxLength: nat)
    requires maxLength >= 3 * COMPLETE_BYTES && IsComplete(message) && |text + message| > maxLength
    ensures CutLength(text, maxLength) == PieceLength(text + message, maxLength, true)
  {
    var most := maxLength - VC_SERIAL_HEADER_BYTES;
    SameStart(text, message, most - COMPLETE_BYTES + 1, most);
  }

  lemma ClearStep(text: seq<byte>, start: nat, cut: nat, maxLength: nat)
    requires maxLength >= 3 * COMPLETE_BYTES && start <= |text| && |text| - start + COMPLETE_BYTES > maxLength
    requires cut == start + CutLength(text[start..], maxLength)
    ensures Clear(text, start, maxLength) <==> text[cut - COMPLETE_BYTES] != START_OF_VC_SERIAL && Clear(text, cut, maxLength)
  {
    NoneTornOneMore(text, cut, Cuts(text, cut, maxLength));
  }

  lemma OneFrame(text: seq<byte>, start: nat, message: seq<byte>, maxLength: nat)
    requires maxLength >= 3 * COMPLETE_BYTES && IsComplete(message) && start <= |text|
    requires |text| - start + COMPLETE_BYTES <= maxLength
    ensures Unambiguous(Pieces(text[start..] + message, maxLength)) && Clear(text, start, maxLength)
  {
    LastPiece(text[start..], message, maxLength);
  }

  lemma NextPieces(text: seq<byte>, start: nat, cut: nat, message: seq<byte>, maxLength: nat)
    requires maxLength >= 3 * COMPLETE_BYTES && IsComplete(message) && start <= |text|
    requires |text| - start + COMPLETE_BYTES > maxLength && cut == start + CutLength(text[start..], maxLength)
    ensures Unambiguous(Pieces(text[start..] + message, maxLength)) <==>
            text[cut - COMPLETE_BYTES] != START_OF_VC_SERIAL && Unambiguous(Pieces(text[cut..] + message, maxLength))
  {
    PiecesStep(text[start..], cut - start, message, maxLength);
    BehindCut(text, start, cut);
  }

  lemma BehindCut(text: seq<byte>, start: nat, cut: nat)
    requires start + COMPLETE_BYTES <= cut <= |text|
    ensures text[start..][cut - start..] == text[cut..]
    ensures text[start..][cut - start - COMPLETE_BYTES] == text[cut - COMPLETE_BYTES]
  {
  }

  /** Both sides of the equivalence go on behind the first cut. */
  lemma NextFrame(text: seq<byte>, start: nat, message: seq<byte>, maxLength: nat) returns (cut: nat, torn: bool)
    requires maxLength >= 3 * COMPLETE_BYTES && IsComplete(message) && start <= |text|
    requires |text| - start + COMPLETE_BYTES > maxLength
    ensures start < cut <= |text|
    ensures Clear(text, start, maxLength) == (!torn && Clear(text, cut, maxLength))
    ensures Unambiguous(Pieces(text[start..] + message, maxLength)) == (!torn && Unambiguous(Pieces(text[cut..] + message, maxLength)))
  {
    cut := start + CutLength(text[start..], maxLength);
    torn := text[cut - COMPLETE_BYTES] == START_OF_VC_SERIAL;
    ClearStep(text, start, cut, maxLength);
    NextPieces(text, start, cut, message, maxLength);
  }

  lemma {:induction false} ClearIsUnambiguous(text: seq<byte>, start: nat, message: seq<byte>, maxLength: nat)
    requires maxLength >= 3 * COMPLETE_BYTES && IsComplete(message) && start <= |text|
    ensures Unambiguous(Pieces(text[start..] + message, maxLength)) <==> Clear(text, start, maxLength)
    decreases |text| - start
  {
    if |text| - start + COMPLETE_BYTES <= maxLength {
      OneFrame(text, start, message, maxLength);
    } else {
      var cut, torn := NextFrame(text, start, message, maxLength);
      ClearIsUnambiguous(text, cut, message, maxLength);
    }
  }

  lemma PiecesStep(text: seq<byte>, n: nat, message: seq<byte>, maxLength: nat)
    requires maxLength >= 3 * COMPLETE_BYTES && IsComplete(message) && |text + message| > maxLength
    requires n == CutLength(text, maxLength)
    ensures Unambiguous(Pieces(text + message, maxLength)) <==>
            text[n - COMPLETE_BYTES] != START_OF_VC_SERIAL && Unambiguous(Pieces(text[n..] + message, maxLength))
  {
    CutIsPiece(text, message, maxLength);
    OneStep(text, message, maxLength);
    DeliverFirst(text[..n], Pieces(text[n..] + message, maxLength), [0, 0, 0]);
  }

  /**
   The host gets the text and the one message exactly if and only if the text has
   no start byte five bytes before a place where it is cut.
   */
  lemma RecoversExactly(text: seq<byte>, message: seq<byte>, header: seq<byte>, maxLength: nat)
    requires maxLength >= 3 * COMPLETE_BYTES && IsComplete(message) && |header| == VC_RADIO_HEADER_BYTES
    ensures Deliver(Pieces(text + message, maxLength), header) == Received(text, [message]) <==> Clear(text, 0, maxLength)
  {
    MessageIsNeverSplit(text, message, maxLength);
    DeliverExactly(text, message, header, Pieces(text + message, maxLength), maxLength);
    assert text[0..] == text;
    ClearIsUnambiguous(text, 0, message, maxLength);
  }

  /** For every frame size there is such a text: part of it reaches the host as a second message. */
  lemma TextIsTorn(message: seq<byte>, header: seq<byte>, maxLength: nat) returns (text: seq<byte>)
    requires maxLength >= 3 * COMPLETE_BYTES && IsComplete(message) && |header| == VC_RADIO_HEADER_BYTES
    ensures |text| == maxLength - VC_SERIAL_HEADER_BYTES
    ensures |Deliver(Pieces(text + message, maxLength), header).messages| >= 2
    ensures Deliver(Pieces(text + message, maxLength), header) != Received(text, [message])
  {
    var most := maxLength - VC_SERIAL_HEADER_BYTES;
    text := seq(most, i => if i == most - COMPLETE_BYTES then START_OF_VC_SERIAL else 0);
    assert text[0..] == text && CutLength(text, maxLength) == most;
    ClearStep(text, 0, most, maxLength);
    ClearIsUnambiguous(text, 0, message, maxLength);
    MessageIsNeverSplit(text, message, maxLength);
    DeliverExactly(text, message, header, Pieces(text + message, maxLength), maxLength);
  }

  /** A text without start bytes arrives exactly. */
  lemma PlainTextRecovers(text: seq<byte>, message: seq<byte>, header: seq<byte>, maxLength: nat)
    requires maxLength >= 3 * COMPLETE_BYTES && IsComplete(message) && |header| == VC_RADIO_HEADER_BYTES
    requires START_OF_VC_SERIAL !in text
    ensures Deliver(Pieces(text + message, maxLength), header) == Received(text, [message])
  {
    RecoversExactly(text, message, header, maxLength);
  }
}
