/** Building and parsing frames, for spread factors above 6. */
module Frame {
  import opened Basics
  import opened ChannelTimer
  import Crc16
  import Whitening

  const MAX_PACKET_SIZE := 255
  const VC_BROADCAST: byte := 0xFF
  const VC_UNASSIGNED: byte := 0xFD

  datatype Mode = Multipoint | PointToPoint | VirtualCircuit

  datatype Settings = Settings(
    operatingMode: Mode,
    verifyRxNetID: bool,
    netID: byte,
    frequencyHop: bool,
    enableCRC16: bool,
    encryptData: bool,
    dataScrambling: bool)

  /** AES-GCM with the shared key and vector, as any length-preserving invertible function. */
  datatype Cipher = Cipher(encrypt: seq<byte> -> seq<byte>, decrypt: seq<byte> -> seq<byte>)

  ghost predicate Invertible(a: Cipher) {
    forall s :: |a.encrypt(s)| == |s| && |a.decrypt(s)| == |s| && a.decrypt(a.encrypt(s)) == s
  }

  /** The control byte: type, ACK number, yield request and ignore request. */
  datatype Control = Control(datagramType: byte, ackNumber: byte, requestYield: bool, ignoreFrame: bool)

  /** The values the bit fields can hold. */
  predicate Encodable(c: Control) {
    c.datagramType < 16 && c.ackNumber < 4
  }

  /** From the lowest bit: four of type, two of number, one for each request. */
  function Pack(c: Control): byte {
    c.datagramType | (c.ackNumber << 4) | (if c.requestYield then 0x40 else 0) | (if c.ignoreFrame then 0x80 else 0)
  }

  function Unpack(b: byte): Control {
    Control(b & 0x0F, (b >> 4) & 0x03, b & 0x40 != 0, b & 0x80 != 0)
  }

  lemma UnpackPack(c: Control)
    requires Encodable(c)
    ensures Unpack(Pack(c)) == c
  {
  }

  /** A uint16 in memory order. */
  function WordBytes(w: bv16): (s: seq<byte>)
    ensures |s| == 2
  {
    [(w & 0xFF) as byte, (w >> 8) as byte]
  }

  function Joined(lo: byte, hi: byte): bv16 {
    (lo as bv16) | ((hi as bv16) << 8)
  }

  /** Two bytes read as an int16. */
  function ReadWord(lo: byte, hi: byte): Int16 {
    ToInt16(Joined(lo, hi) as int)
  }

  lemma JoinedBytes(w: bv16)
    ensures Joined((w & 0xFF) as byte, (w >> 8) as byte) == w
  {
  }

  lemma ReadWritten(w: bv16)
    ensures ReadWord(WordBytes(w)[0], WordBytes(w)[1]) == ToInt16(w as int)
  {
    JoinedBytes(w);
  }

  // ---------------------------------------------------------------------
  // Frame layout
  // ---------------------------------------------------------------------

  predicate HasNetID(c: Settings) {
    c.operatingMode.PointToPoint? || c.verifyRxNetID
  }

  /** `selectHeaderAndTrailerBytes`. */
  function HeaderBytes(c: Settings): nat {
    (if HasNetID(c) then 1 else 0) + 1 + (if c.frequencyHop then 2 else 0)
  }

  function TrailerBytes(c: Settings): nat {
    if c.enableCRC16 then 2 else 0
  }

  function MinDatagramSize(c: Settings): nat {
    HeaderBytes(c) + TrailerBytes(c)
  }

  function MaxDatagramSize(c: Settings): nat {
    MAX_PACKET_SIZE - MinDatagramSize(c)
  }

  function Header(c: Settings, control: Control, msToNextHop: bv16): (h: seq<byte>)
    ensures |h| == HeaderBytes(c)
  {
    (if HasNetID(c) then [c.netID] else []) + [Pack(control)] + (if c.frequencyHop then WordBytes(msToNextHop) else [])
  }

  function WithTrailer(c: Settings, plain: seq<byte>): seq<byte> {
    if c.enableCRC16 then plain + Crc16.Trailer(Crc16.Crc(plain)) else plain
  }

  function Hidden(c: Settings, a: Cipher, frame: seq<byte>): seq<byte> {
    var e := if c.encryptData then a.encrypt(frame) else frame;
    if c.dataScrambling then Whitening.Whitened(e) else e
  }

  function Shown(c: Settings, a: Cipher, frame: seq<byte>): seq<byte> {
    var e := if c.dataScrambling then Whitening.Whitened(frame) else frame;
    if c.encryptData then a.decrypt(e) else e
  }

  /** What goes on air. */
  function Build(c: Settings, a: Cipher, control: Control, msToNextHop: bv16, payload: seq<byte>): seq<byte> {
    Hidden(c, a, WithTrailer(c, Header(c, control, msToNextHop) + payload))
  }

  datatype Received =
    | Datagram(control: Control, msToNextHop: Option<Int16>, payload: seq<byte>)
    | Bad
    | CrcError
    | NetIdMismatch
    | NotMine

  /** The checks on the virtual-circuit header. */
  function VcChecked(r: Received, myVc: byte): Received
    requires r.Datagram?
  {
    var p := r.payload;
    if |p| < 3 then Bad
    else if p[2] != VC_UNASSIGNED && p[2] as nat >= MAX_VC then Bad
    else if p[0] as nat != |p| then Bad
    else if p[1] != VC_BROADCAST && p[1] != myVc then NotMine
    else r
  }

  /** Where the control byte is. */
  function ControlAt(c: Settings): nat {
    if HasNetID(c) then 1 else 0
  }

  predicate TrailerRefused(c: Settings, plain: seq<byte>)
    requires |plain| >= MinDatagramSize(c)
  {
    c.enableCRC16 && !Crc16.Accepted(plain[..|plain| - 2], plain[|plain| - 2], plain[|plain| - 1])
  }

  /** `rcvDatagram` up to the switch over the datagram types, after the frame has been decoded. */
  function ParsePlain(c: Settings, myVc: byte, plain: seq<byte>): Received {
    if |plain| < MinDatagramSize(c) then Bad
    else if HasNetID(c) && plain[0] != c.netID then NetIdMismatch
    else if TrailerRefused(c, plain) then CrcError
    else Fields(c, myVc, plain)
  }

  function Fields(c: Settings, myVc: byte, plain: seq<byte>): Received
    requires |plain| >= MinDatagramSize(c)
  {
    var control := Unpack(plain[ControlAt(c)]);
    if control.ignoreFrame then Bad
    else
      var hop := if c.frequencyHop then Some(ReadWord(plain[ControlAt(c) + 1], plain[ControlAt(c) + 2])) else None;
      var r := Datagram(control, hop, plain[HeaderBytes(c)..|plain| - TrailerBytes(c)]);
      if c.operatingMode.VirtualCircuit? then VcChecked(r, myVc) else r
  }

  function Parse(c: Settings, a: Cipher, myVc: byte, frame: seq<byte>): Received {
    ParsePlain(c, myVc, Shown(c, a, frame))
  }

  // ---------------------------------------------------------------------
  // Round trip
  // ---------------------------------------------------------------------

  lemma ShownHidden(c: Settings, a: Cipher, frame: seq<byte>)
    requires Invertible(a)
    ensures Shown(c, a, Hidden(c, a, frame)) == frame && |Hidden(c, a, frame)| == |frame|
  {
    Whitening.WhiteningIsInvolution(if c.encryptData then a.encrypt(frame) else frame);
  }

  lemma TrailerPasses(c: Settings, plain: seq<byte>)
    requires |plain| >= HeaderBytes(c)
    ensures !TrailerRefused(c, WithTrailer(c, plain))
  {
    var frame := WithTrailer(c, plain);
    if c.enableCRC16 {
      assert frame[..|frame| - 2] == plain;
    }
  }

  /** What the receiver should be told. */
  function Intended(c: Settings, control: Control, msToNextHop: bv16, payload: seq<byte>): Received {
    Datagram(control, if c.frequencyHop then Some(ToInt16(msToNextHop as int)) else None, payload)
  }

  lemma HeaderFields(c: Settings, control: Control, msToNextHop: bv16, rest: seq<byte>)
    requires Encodable(control)
    ensures var f := Header(c, control, msToNextHop) + rest;
            && (HasNetID(c) ==> f[0] == c.netID)
            && Unpack(f[ControlAt(c)]) == control
            && (c.frequencyHop ==> ReadWord(f[ControlAt(c) + 1], f[ControlAt(c) + 2]) == ToInt16(msToNextHop as int))
            && f[HeaderBytes(c)..] == rest
  {
    UnpackPack(control);
    ReadWritten(msToNextHop);
  }

  /** The receiver's verdict on a frame with these contents. */
  function Expected(c: Settings, myVc: byte, control: Control, msToNextHop: bv16, payload: seq<byte>): Received {
    var sent := Intended(c, control, msToNextHop, payload);
    if control.ignoreFrame then Bad
    else if c.operatingMode.VirtualCircuit? then VcChecked(sent, myVc)
    else sent
  }

  lemma Middle<T>(s: seq<T>, t: seq<T>, u: seq<T>)
    ensures (s + (t + u))[|s|..|s| + |t|] == t
  {
  }

  lemma BuiltFields(c: Settings, myVc: byte, control: Control, msToNextHop: bv16, payload: seq<byte>, trailer: seq<byte>)
    requires Encodable(control) && |trailer| == TrailerBytes(c)
    ensures Fields(c, myVc, Header(c, control, msToNextHop) + (payload + trailer)) == Expected(c, myVc, control, msToNextHop, payload)
  {
    var frame := Header(c, control, msToNextHop) + (payload + trailer);
    HeaderFields(c, control, msToNextHop, payload + trailer);
    Middle(Header(c, control, msToNextHop), payload, trailer);
    assert |frame| - TrailerBytes(c) == HeaderBytes(c) + |payload|;
  }

  lemma ParsedPlain(c: Settings, myVc: byte, control: Control, msToNextHop: bv16, payload: seq<byte>)
    requires Encodable(control)
    ensures ParsePlain(c, myVc, WithTrailer(c, Header(c, control, msToNextHop) + payload))
            == Expected(c, myVc, control, msToNextHop, payload)
  {
    var plain := Header(c, control, msToNextHop) + payload;
    TrailerPasses(c, plain);
    var trailer := if c.enableCRC16 then Crc16.Trailer(Crc16.Crc(plain)) else [];
    assert WithTrailer(c, plain) == Header(c, control, msToNextHop) + (payload + trailer);
    HeaderFields(c, control, msToNextHop, payload + trailer);
    BuiltFields(c, myVc, control, msToNextHop, payload, trailer);
  }

  /**
   Main result.  For every combination of net ID, hopping, CRC, whitening and
   encryption, the receiver gets back type, ACK number, yield request, hop time
   and payload, unless the frame asks to be ignored; in virtual-circuit mode
   only the verdict on the header in the payload stands between them.
   */
  lemma FrameRoundTrip(c: Settings, a: Cipher, myVc: byte, control: Control, msToNextHop: bv16, payload: seq<byte>)
    requires Invertible(a) && Encodable(control)
    ensures Parse(c, a, myVc, Build(c, a, control, msToNextHop, payload)) == Expected(c, myVc, control, msToNextHop, payload)
  {
    ShownHidden(c, a, WithTrailer(c, Header(c, control, msToNextHop) + payload));
    ParsedPlain(c, myVc, control, msToNextHop, payload);
  }

  /** A radio of another network refuses the frame before it looks at the trailer. */
  lemma OtherNetwork(c: Settings, netID: byte, a: Cipher, myVc: byte, control: Control, msToNextHop: bv16, payload: seq<byte>)
    requires Invertible(a) && Encodable(control) && HasNetID(c) && netID != c.netID
    ensures Parse(c.(netID := netID), a, myVc, Build(c, a, control, msToNextHop, payload)) == NetIdMismatch
  {
    var plain := Header(c, control, msToNextHop) + payload;
    ShownHidden(c, a, WithTrailer(c, plain));
    assert Shown(c.(netID := netID), a, Build(c, a, control, msToNextHop, payload)) == WithTrailer(c, plain);
  }

  /** A payload fits the 255-byte packet exactly when it has at most `maxDatagramSize` bytes. */
  lemma PayloadFits(c: Settings, a: Cipher, control: Control, msToNextHop: bv16, payload: seq<byte>)
    requires Invertible(a) && Encodable(control)
    ensures |Build(c, a, control, msToNextHop, payload)| == MinDatagramSize(c) + |payload|
    ensures |Build(c, a, control, msToNextHop, payload)| <= MAX_PACKET_SIZE <==> |payload| <= MaxDatagramSize(c)
  {
    ShownHidden(c, a, WithTrailer(c, Header(c, control, msToNextHop) + payload));
  }

  // ---------------------------------------------------------------------
  // In place
  // ---------------------------------------------------------------------

  /** Replace the first bytes of a buffer. */
  method Overwrite(buffer: array<byte>, bytes: seq<byte>)
    requires |bytes| <= buffer.Length
    modifies buffer
    ensures buffer[..|bytes|] == bytes && buffer[|bytes|..] == old(buffer[|bytes|..])
  {
    forall k | 0 <= k < |bytes| {
      buffer[k] := bytes[k];
    }
  }

  /** The header part of `transmitDatagram`. */
  method WriteHeader(c: Settings, control: Control, msToNextHop: bv16, outgoingPacket: array<byte>)
    requires HeaderBytes(c) <= outgoingPacket.Length
    modifies outgoingPacket
    ensures outgoingPacket[..HeaderBytes(c)] == Header(c, control, msToNextHop)
    ensures outgoingPacket[HeaderBytes(c)..] == old(outgoingPacket[HeaderBytes(c)..])
  {
    var header := 0;
    if c.operatingMode.PointToPoint? || c.verifyRxNetID {
      outgoingPacket[header] := c.netID;
      header := header + 1;
    }
    outgoingPacket[header] := Pack(control);
    header := header + 1;
    if c.frequencyHop {
      outgoingPacket[header] := (msToNextHop & 0xFF) as byte;
      outgoingPacket[header + 1] := (msToNextHop >> 8) as byte;
      header := header + 2;
    }
  }

  /** The trailer part of `transmitDatagram`. */
  method WriteTrailer(c: Settings, outgoingPacket: array<byte>, end: nat) returns (size: nat)
    requires end + TrailerBytes(c) <= outgoingPacket.Length
    modifies outgoingPacket
    ensures size == end + TrailerBytes(c)
    ensures outgoingPacket[..size] == WithTrailer(c, old(outgoingPacket[..end]))
  {
    size := end;
    if c.enableCRC16 {
      var crc := Crc16.ComputeCrc(outgoingPacket, end);
      ghost var plain := outgoingPacket[..end];
      outgoingPacket[end] := Crc16.High(crc);
      outgoingPacket[end + 1] := Crc16.Low(crc);
      size := end + 2;
      assert outgoingPacket[..size] == plain + [outgoingPacket[end], outgoingPacket[end + 1]];
    }
  }

  lemma HeaderBefore<T>(before: seq<T>, after: seq<T>, h: nat, end: nat)
    requires |before| == |after| && h <= end <= |after| && after[h..] == before[h..]
    ensures after[..end] == after[..h] + before[h..end]
  {
    assert forall k :: h <= k < end ==> after[k] == after[h..][k - h] == before[h..][k - h];
  }

  /** The frame part of `transmitDatagram`: the payload already stands behind the header. */
  method TransmitDatagram(c: Settings, a: Cipher, control: Control, msToNextHop: bv16,
                          outgoingPacket: array<byte>, endOfTxData: nat) returns (txDatagramSize: nat)
    requires Invertible(a) && outgoingPacket.Length == MAX_PACKET_SIZE
    requires HeaderBytes(c) <= endOfTxData <= HeaderBytes(c) + MaxDatagramSize(c)
    modifies outgoingPacket
    ensures txDatagramSize == endOfTxData + TrailerBytes(c) <= MAX_PACKET_SIZE
    ensures outgoingPacket[..txDatagramSize]
            == Build(c, a, control, msToNextHop, old(outgoingPacket[HeaderBytes(c)..endOfTxData]))
  {
    ghost var h := HeaderBytes(c);
    ghost var payload := outgoingPacket[h..endOfTxData];
    ghost var before := outgoingPacket[..];
    WriteHeader(c, control, msToNextHop, outgoingPacket);
    HeaderBefore(before, outgoingPacket[..], h, endOfTxData);
    assert outgoingPacket[..endOfTxData] == Header(c, control, msToNextHop) + payload;
    txDatagramSize := WriteTrailer(c, outgoingPacket, endOfTxData);
    if c.encryptData {
      Overwrite(outgoingPacket, a.encrypt(outgoingPacket[..txDatagramSize]));
    }
    if c.dataScrambling {
      Whitening.RadioComputeWhitening(outgoingPacket, txDatagramSize);
    }
  }

  /** The frame part of `rcvDatagram`. */
  method RcvDatagram(c: Settings, a: Cipher, myVc: byte, incomingBuffer: array<byte>, length: nat) returns (r: Received)
    requires Invertible(a) && incomingBuffer.Length == MAX_PACKET_SIZE && length <= MAX_PACKET_SIZE
    modifies incomingBuffer
    ensures r == Parse(c, a, myVc, old(incomingBuffer[..length]))
  {
    if c.dataScrambling {
      Whitening.RadioComputeWhitening(incomingBuffer, length);
    }
    if c.encryptData {
      Overwrite(incomingBuffer, a.decrypt(incomingBuffer[..length]));
    }
    assert incomingBuffer[..length] == Shown(c, a, old(incomingBuffer[..length]));
    r := ParseBuffer(c, myVc, incomingBuffer, length);
  }

  /** The CRC check of `rcvDatagram`. */
  method CheckTrailer(c: Settings, incomingBuffer: array<byte>, length: nat) returns (refused: bool)
    requires MinDatagramSize(c) <= length <= incomingBuffer.Length
    ensures refused == TrailerRefused(c, incomingBuffer[..length])
  {
    refused := false;
    if c.enableCRC16 {
      var crc := Crc16.ComputeCrc(incomingBuffer, length - 2);
      assert incomingBuffer[..length][..length - 2] == incomingBuffer[..length - 2];
      refused := !Crc16.Matches(crc, incomingBuffer[length - 2], incomingBuffer[length - 1]);
    }
  }

  method ParseBuffer(c: Settings, myVc: byte, incomingBuffer: array<byte>, length: nat) returns (r: Received)
    requires length <= incomingBuffer.Length
    ensures r == ParsePlain(c, myVc, incomingBuffer[..length])
  {
    if length < MinDatagramSize(c) {
      return Bad;
    }
    var rxData := 0;
    if c.operatingMode.PointToPoint? || c.verifyRxNetID {
      rxData := rxData + 1;
      if incomingBuffer[0] != c.netID {
        return NetIdMismatch;
      }
    }
    var refused := CheckTrailer(c, incomingBuffer, length);
    if refused {
      return CrcError;
    }
    r := ReadFields(c, myVc, incomingBuffer, length, rxData);
  }

  /** Control byte, hop time and payload, from `control` on. */
  method ReadFields(c: Settings, myVc: byte, incomingBuffer: array<byte>, length: nat, control: nat) returns (r: Received)
    requires MinDatagramSize(c) <= length <= incomingBuffer.Length && control == ControlAt(c)
    ensures r == Fields(c, myVc, incomingBuffer[..length])
  {
    ghost var plain := incomingBuffer[..length];
    var rxData := control;
    var rxControl := Unpack(incomingBuffer[rxData]);
    rxData := rxData + 1;
    if rxControl.ignoreFrame {
      return Bad;
    }
    var msToNextHopRemote := None;
    if c.frequencyHop {
      msToNextHopRemote := Some(ReadWord(incomingBuffer[rxData], incomingBuffer[rxData + 1]));
      rxData := rxData + 2;
    }
    assert incomingBuffer[rxData..length - TrailerBytes(c)] == plain[HeaderBytes(c)..|plain| - TrailerBytes(c)];
    r := Datagram(rxControl, msToNextHopRemote, incomingBuffer[rxData..length - TrailerBytes(c)]);
    if c.operatingMode.VirtualCircuit? {
      r := VcChecked(r, myVc);
    }
  }
}
