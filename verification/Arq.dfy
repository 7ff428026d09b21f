/**
 The stop-and-wait protocol of an established point-to-point link, between two
 endpoints joined by a lossy FIFO medium in each direction.

 The firmware keeps two-bit numbers only.  Each endpoint here pairs those
 registers with an unbounded history that no decision reads, so that what the
 two-bit tests really mean can be stated and proved.
 */
module Arq {
  import opened Basics
  import Runs

  /** Payload of a numbered frame. */
  datatype Message =
    | Heartbeat
    | Data(bytes: seq<byte>)
    | RemoteCommand(bytes: seq<byte>)
    | RemoteCommandResponse(bytes: seq<byte>)

  datatype Frame =
    | MessageFrame(number: Number, message: Message)
    | AckFrame(number: Number)

  /** What the receiver could take at the moment a frame is validated. */
  datatype Space = Space(inCommandMode: bool, serialFree: int, commandFree: int)

  predicate HasRoom(message: Message, space: Space) {
    match message
    case Heartbeat => true
    case Data(bytes) => !space.inCommandMode && |bytes| <= space.serialFree
    case RemoteCommand(bytes) => |bytes| <= space.commandFree
    case RemoteCommandResponse(bytes) => |bytes| <= space.serialFree
  }

  /**
   The `VIRTUAL_CIRCUIT` counters and the retransmit state.  `outstanding` is
   the saved frame while the ACK timer runs and None while it is stopped.
   */
  datatype Registers = Registers(
    txAckNumber: Number,
    rmtTxAckNumber: Number,
    rxAckNumber: Number,
    outstanding: Option<Frame>)

  datatype Verdict = Accepted | Duplicate | Bad

  /** Decision of `validateDatagram`. */
  function Validate(regs: Registers, number: Number, message: Message, space: Space): Verdict {
    if number != regs.rmtTxAckNumber then
      if number == Pred4(regs.rmtTxAckNumber) then Duplicate else Bad
    else if HasRoom(message, space) then Accepted
    else Bad
  }

  /** Effect of accepting a numbered frame. */
  function Accept(regs: Registers): Registers {
    regs.(rxAckNumber := regs.rmtTxAckNumber, rmtTxAckNumber := Succ4(regs.rmtTxAckNumber))
  }

  /** Effect of a DATA_ACK: a wrong number is ignored, the right one stops the timer. */
  function TakeAck(regs: Registers, number: Number): Registers {
    if number != regs.txAckNumber then regs
    else regs.(txAckNumber := Succ4(regs.txAckNumber), outstanding := None)
  }

  /** First transmission of a message: numbered, saved for retransmission, timer started. */
  function Launch(regs: Registers, message: Message): Registers {
    regs.(outstanding := Some(MessageFrame(regs.txAckNumber, message)))
  }

  /** Frame put on air by a retransmission; a HEARTBEAT is built anew. */
  function Again(regs: Registers): Frame
    requires regs.outstanding.Some?
  {
    match regs.outstanding.value
    case MessageFrame(number, Heartbeat) => MessageFrame(regs.txAckNumber, Heartbeat)
    case saved => saved
  }

  // ---------------------------------------------------------------------
  // Endpoints with their history
  // ---------------------------------------------------------------------

  /**
   `acked` counts the numbers acknowledged to this endpoint, `offered[n]` is the
   first message it sent under number n, `replaced` holds the numbers whose
   unacknowledged message was overwritten by a HEARTBEAT, and `accepted` lists
   the messages it took from the peer.
   */
  datatype Endpoint = Endpoint(
    regs: Registers,
    acked: nat,
    offered: seq<Message>,
    replaced: set<nat>,
    accepted: seq<Message>)

  /** A frame on its way, with the unbounded number its two bits stand for. */
  datatype Flight = Flight(frame: Frame, number: nat)

  datatype Session = Session(left: Endpoint, right: Endpoint, toLeft: seq<Flight>, toRight: seq<Flight>)
  {
    function End(side: Side): Endpoint {
      if side.Left? then left else right
    }

    /** The frames travelling towards `side`. */
    function To(side: Side): seq<Flight> {
      if side.Left? then toLeft else toRight
    }

    function WithEnd(side: Side, e: Endpoint): Session {
      if side.Left? then this.(left := e) else this.(right := e)
    }

    function WithTo(side: Side, q: seq<Flight>): Session {
      if side.Left? then this.(toLeft := q) else this.(toRight := q)
    }
  }

  const ZERO_REGISTERS := Registers(0, 0, 0, None)
  const FRESH := Endpoint(ZERO_REGISTERS, 0, [], {}, [])
  const OPENED := Session(FRESH, FRESH, [], [])

  datatype Action =
    | Send(message: Message)
    | SendHeartbeat
    | Retransmit
    | Receive(space: Space)
    | Lose(index: nat)

  predicate Enabled(s: Session, me: Side, action: Action) {
    match action
    case Send(message) => s.End(me).regs.outstanding.None? && !message.Heartbeat?
    case SendHeartbeat => true
    case Retransmit => s.End(me).regs.outstanding.Some?
    case Receive(_) => s.To(me) != []
    case Lose(index) => index < |s.To(me)|
  }

  function Emit(s: Session, me: Side, flight: Flight, sent: bool): Session {
    if sent then s.WithTo(Other(me), s.To(Other(me)) + [flight]) else s
  }

  /** History of a launch under the current number. */
  function Offer(e: Endpoint, message: Message): Endpoint {
    var regs := Launch(e.regs, message);
    if e.regs.outstanding.None? then
      e.(regs := regs, offered := e.offered + [message])
    else if e.regs.outstanding == Some(MessageFrame(e.regs.txAckNumber, Heartbeat)) then
      e.(regs := regs)
    else
      e.(regs := regs, replaced := e.replaced + {e.acked})
  }

  function Without(q: seq<Flight>, index: nat): seq<Flight>
    requires index < |q|
  {
    q[..index] + q[index + 1..]
  }

  /** The ACK an endpoint returns, under the number of its latest acceptance. */
  function AckFlight(e: Endpoint): Flight {
    Flight(AckFrame(e.regs.rxAckNumber), if e.accepted == [] then 0 else |e.accepted| - 1)
  }

  /** Endpoint `me` takes the frame at the head of its queue; `sent` says whether its ACK got on air. */
  function ReceiveHead(s: Session, me: Side, space: Space, sent: bool): Session
    requires s.To(me) != []
  {
    var e := s.End(me);
    var rest := s.WithTo(me, s.To(me)[1..]);
    match s.To(me)[0].frame
    case AckFrame(number) =>
      rest.WithEnd(me, e.(regs := TakeAck(e.regs, number),
                          acked := if number == e.regs.txAckNumber then e.acked + 1 else e.acked))
    case MessageFrame(number, message) =>
      match Validate(e.regs, number, message, space)
      case Bad => rest
      case Duplicate => Emit(rest, me, AckFlight(e), sent)
      case Accepted =>
        var e' := e.(regs := Accept(e.regs), accepted := e.accepted + [message]);
        Emit(rest.WithEnd(me, e'), me, AckFlight(e'), sent)
  }

  /** One step taken by endpoint `me`, or by the medium towards it. */
  function Apply(s: Session, me: Side, action: Action, sent: bool): Session
    requires Enabled(s, me, action)
  {
    var e := s.End(me);
    match action
    case Send(message) =>
      Emit(s.WithEnd(me, Offer(e, message)), me, Flight(MessageFrame(e.regs.txAckNumber, message), e.acked), sent)
    case SendHeartbeat =>
      Emit(s.WithEnd(me, Offer(e, Heartbeat)), me, Flight(MessageFrame(e.regs.txAckNumber, Heartbeat), e.acked), sent)
    case Retransmit => Emit(s, me, Flight(Again(e.regs), e.acked), sent)
    case Receive(space) => ReceiveHead(s, me, space, sent)
    case Lose(index) => s.WithTo(me, Without(s.To(me), index))
  }

  // ---------------------------------------------------------------------
  // Invariant
  // ---------------------------------------------------------------------

  /** `message` may carry number `n` of sender `e`. */
  predicate Carries(e: Endpoint, n: nat, message: Message) {
    n < |e.offered| && (message == e.offered[n] || (message.Heartbeat? && n in e.replaced))
  }

  /** The retransmit buffer holds an unacknowledged message other than a HEARTBEAT. */
  predicate HoldsMessage(regs: Registers) {
    regs.outstanding.Some? && !(regs.outstanding.value.MessageFrame? && regs.outstanding.value.message.Heartbeat?)
  }

  /** A number is overwritten once and for all: the HEARTBEAT that took it stays until it is acknowledged. */
  predicate ReplacedOk(e: Endpoint) {
    forall n :: n in e.replaced ==>
      n <= e.acked && (n == e.acked ==> e.regs.outstanding.Some? && !HoldsMessage(e.regs))
  }

  predicate MessageOk(snd: Endpoint, rcv: Endpoint, f: Flight) {
    f.frame.MessageFrame? ==>
      && |rcv.accepted| <= f.number + 1
      && f.frame.number == f.number % 4
      && Carries(snd, f.number, f.frame.message)
  }

  predicate AckOk(snd: Endpoint, rcv: Endpoint, f: Flight) {
    f.frame.AckFrame? ==>
      && snd.acked <= f.number + 1
      && f.number < |rcv.accepted|
      && f.frame.number == f.number % 4
  }

  /** Frames of the same kind travel in the order of their unbounded numbers. */
  predicate Ordered(q: seq<Flight>) {
    forall i, j :: 0 <= i < j < |q| && q[i].frame.MessageFrame? == q[j].frame.MessageFrame?
                   ==> q[i].number <= q[j].number
  }

  /** What relates a sender to the receiver of its messages. */
  predicate Direction(snd: Endpoint, rcv: Endpoint, forth: seq<Flight>, back: seq<Flight>) {
    && ReplacedOk(snd)
    && snd.regs.txAckNumber == snd.acked % 4
    && rcv.regs.rmtTxAckNumber == |rcv.accepted| % 4
    && (rcv.accepted != [] ==> rcv.regs.rxAckNumber == (|rcv.accepted| - 1) % 4)
    && snd.acked <= |rcv.accepted| <= |snd.offered|
    && |snd.offered| == snd.acked + (if snd.regs.outstanding.Some? then 1 else 0)
    && (snd.regs.outstanding.Some? ==>
          && snd.regs.outstanding.value.MessageFrame?
          && snd.regs.outstanding.value.number == snd.regs.txAckNumber
          && Carries(snd, snd.acked, snd.regs.outstanding.value.message))
    && (forall n :: 0 <= n < |rcv.accepted| ==> Carries(snd, n, rcv.accepted[n]))
    && (forall i :: 0 <= i < |forth| ==> MessageOk(snd, rcv, forth[i]))
    && (forall i :: 0 <= i < |back| ==> AckOk(snd, rcv, back[i]))
  }

  predicate Toward(s: Session, rcv: Side) {
    Direction(s.End(Other(rcv)), s.End(rcv), s.To(rcv), s.To(Other(rcv)))
  }

  predicate Inv(s: Session) {
    && Toward(s, Left)
    && Toward(s, Right)
    && Ordered(s.toLeft)
    && Ordered(s.toRight)
  }

  lemma OpenedInv()
    ensures Inv(OPENED)
  {
  }

  /** Two bits tell apart neighbours. */
  lemma Neighbours(n: nat, r: nat)
    requires r <= n + 1 && n <= r
    ensures n % 4 == r % 4 <==> n == r
    ensures n % 4 == Pred4(r % 4) <==> n == r - 1
    ensures (r + 1) % 4 == Succ4(r % 4)
  {
  }

  lemma LoseForth(snd: Endpoint, rcv: Endpoint, forth: seq<Flight>, back: seq<Flight>, index: nat)
    requires Direction(snd, rcv, forth, back) && index < |forth|
    ensures Direction(snd, rcv, Without(forth, index), back)
  {
    var q := Without(forth, index);
    forall i | 0 <= i < |q| ensures MessageOk(snd, rcv, q[i]) {
      assert q[i] == forth[if i < index then i else i + 1];
    }
  }

  lemma LoseBack(snd: Endpoint, rcv: Endpoint, forth: seq<Flight>, back: seq<Flight>, index: nat)
    requires Direction(snd, rcv, forth, back) && index < |back|
    ensures Direction(snd, rcv, forth, Without(back, index))
  {
    var q := Without(back, index);
    forall i | 0 <= i < |q| ensures AckOk(snd, rcv, q[i]) {
      assert q[i] == back[if i < index then i else i + 1];
    }
  }

  lemma LoseOrdered(q: seq<Flight>, index: nat)
    requires Ordered(q) && index < |q|
    ensures Ordered(Without(q, index))
  {
    var q' := Without(q, index);
    assert forall i :: 0 <= i < |q'| ==> q'[i] == q[if i < index then i else i + 1];
  }

  /** Losing a frame keeps the invariant. */
  lemma LoseInv(s: Session, me: Side, index: nat)
    requires Inv(s) && index < |s.To(me)|
    ensures Inv(s.WithTo(me, Without(s.To(me), index)))
  {
    LoseForth(s.End(Other(me)), s.End(me), s.To(me), s.To(Other(me)), index);
    LoseBack(s.End(me), s.End(Other(me)), s.To(Other(me)), s.To(me), index);
    LoseOrdered(s.To(me), index);
  }

  lemma InvFrom(s: Session, me: Side)
    requires Toward(s, me) && Toward(s, Other(me)) && Ordered(s.To(me)) && Ordered(s.To(Other(me)))
    ensures Inv(s)
  {
    match me case Left => case Right =>
  }

  lemma InvTo(s: Session, me: Side)
    requires Inv(s)
    ensures Toward(s, me) && Toward(s, Other(me)) && Ordered(s.To(me)) && Ordered(s.To(Other(me)))
  {
    match me case Left => case Right =>
  }

  /** One more frame of the sender's, carrying its current number. */
  lemma EmitForth(snd: Endpoint, rcv: Endpoint, forth: seq<Flight>, back: seq<Flight>, f: Flight)
    requires Direction(snd, rcv, forth, back) && MessageOk(snd, rcv, f)
    ensures Direction(snd, rcv, forth + [f], back)
  {
  }

  lemma EmitBack(snd: Endpoint, rcv: Endpoint, forth: seq<Flight>, back: seq<Flight>, f: Flight)
    requires Direction(snd, rcv, forth, back) && AckOk(snd, rcv, f)
    ensures Direction(snd, rcv, forth, back + [f])
  {
  }

  lemma EmitInv(s: Session, me: Side, f: Flight, sent: bool)
    requires Inv(s)
    requires MessageOk(s.End(me), s.End(Other(me)), f)
    requires AckOk(s.End(Other(me)), s.End(me), f)
    requires f.number == if f.frame.MessageFrame? then s.End(me).acked else |s.End(me).accepted| - 1
    ensures Inv(Emit(s, me, f, sent))
  {
    if sent {
      InvTo(s, me);
      var e, peer, q := s.End(me), s.End(Other(me)), s.To(Other(me));
      EmitOrdered(e, peer, q, s.To(me), f);
      EmitForth(e, peer, q, s.To(me), f);
      EmitBack(peer, e, s.To(me), q, f);
      InvFrom(Emit(s, me, f, sent), me);
    }
  }

  /** No frame of `e` under way is ahead of its newest number and its newest acceptance. */
  lemma EmitOrdered(e: Endpoint, peer: Endpoint, q: seq<Flight>, back: seq<Flight>, f: Flight)
    requires Direction(e, peer, q, back) && Direction(peer, e, back, q) && Ordered(q)
    requires f.number == if f.frame.MessageFrame? then e.acked else |e.accepted| - 1
    ensures Ordered(q + [f])
  {
    forall i | 0 <= i < |q|
      ensures q[i].frame.MessageFrame? ==> q[i].number <= e.acked
      ensures q[i].frame.AckFrame? ==> q[i].number <= |e.accepted| - 1
    {
      assert MessageOk(e, peer, q[i]);
      assert AckOk(peer, e, q[i]);
    }
  }

  /** Offering a message keeps the meaning of every number already in use. */
  lemma OfferDirection(snd: Endpoint, rcv: Endpoint, forth: seq<Flight>, back: seq<Flight>, message: Message)
    requires Direction(snd, rcv, forth, back)
    requires snd.regs.outstanding.None? || message.Heartbeat?
    ensures Direction(Offer(snd, message), rcv, forth, back)
    ensures Carries(Offer(snd, message), snd.acked, message)
  {
    var snd' := Offer(snd, message);
    forall n, m | Carries(snd, n, m) ensures Carries(snd', n, m) {}
    forall i | 0 <= i < |forth| ensures MessageOk(snd', rcv, forth[i]) {
      assert MessageOk(snd, rcv, forth[i]);
    }
    forall i | 0 <= i < |back| ensures AckOk(snd', rcv, back[i]) {
      assert AckOk(snd, rcv, back[i]);
    }
  }

  lemma OfferInv(s: Session, me: Side, message: Message)
    requires Inv(s)
    requires s.End(me).regs.outstanding.None? || message.Heartbeat?
    ensures Inv(s.WithEnd(me, Offer(s.End(me), message)))
    ensures Carries(Offer(s.End(me), message), s.End(me).acked, message)
  {
    OfferDirection(s.End(me), s.End(Other(me)), s.To(Other(me)), s.To(me), message);
    OfferReceiver(s.End(Other(me)), s.End(me), s.To(me), s.To(Other(me)), message);
  }

  lemma OfferReceiver(snd: Endpoint, rcv: Endpoint, forth: seq<Flight>, back: seq<Flight>, message: Message)
    requires Direction(snd, rcv, forth, back)
    ensures Direction(snd, Offer(rcv, message), forth, back)
  {
    var rcv' := Offer(rcv, message);
    forall i | 0 <= i < |forth| ensures MessageOk(snd, rcv', forth[i]) {
      assert MessageOk(snd, rcv, forth[i]);
    }
    forall i | 0 <= i < |back| ensures AckOk(snd, rcv', back[i]) {
      assert AckOk(snd, rcv, back[i]);
    }
  }

  /** The two-bit comparison of a DATA_ACK decides exactly the comparison of unbounded numbers. */
  lemma AckIsExact(snd: Endpoint, rcv: Endpoint, forth: seq<Flight>, back: seq<Flight>)
    requires Direction(snd, rcv, forth, back) && back != [] && back[0].frame.AckFrame?
    ensures back[0].frame.number == snd.regs.txAckNumber <==> back[0].number == snd.acked
    ensures back[0].frame.number == snd.regs.txAckNumber ==> snd.acked < |rcv.accepted| && snd.regs.outstanding.Some?
  {
    assert AckOk(snd, rcv, back[0]);
    Neighbours(back[0].number, snd.acked);
  }

  function Acknowledged(e: Endpoint, number: Number): Endpoint {
    e.(regs := TakeAck(e.regs, number), acked := if number == e.regs.txAckNumber then e.acked + 1 else e.acked)
  }

  lemma TakeAckDirection(snd: Endpoint, rcv: Endpoint, forth: seq<Flight>, back: seq<Flight>)
    requires Direction(snd, rcv, forth, back) && back != [] && back[0].frame.AckFrame? && Ordered(back)
    ensures Direction(Acknowledged(snd, back[0].frame.number), rcv, forth, back[1..])
  {
    var snd' := Acknowledged(snd, back[0].frame.number);
    AckIsExact(snd, rcv, forth, back);
    forall i | 0 <= i < |forth| ensures MessageOk(snd', rcv, forth[i]) {
      assert MessageOk(snd, rcv, forth[i]);
    }
    forall i | 0 <= i < |back| - 1 ensures AckOk(snd', rcv, back[1..][i]) {
      assert AckOk(snd, rcv, back[i + 1]);
    }
    Neighbours(snd.acked, snd.acked);
  }

  lemma TakeAckReceiver(snd: Endpoint, rcv: Endpoint, forth: seq<Flight>, back: seq<Flight>, number: Number)
    requires Direction(snd, rcv, forth, back)
    ensures Direction(snd, Acknowledged(rcv, number), forth, back)
  {
    var rcv' := Acknowledged(rcv, number);
    forall i | 0 <= i < |forth| ensures MessageOk(snd, rcv', forth[i]) {
      assert MessageOk(snd, rcv, forth[i]);
    }
    forall i | 0 <= i < |back| ensures AckOk(snd, rcv', back[i]) {
      assert AckOk(snd, rcv, back[i]);
    }
  }

  lemma TakeAckInv(s: Session, me: Side, space: Space, sent: bool)
    requires Inv(s) && s.To(me) != [] && s.To(me)[0].frame.AckFrame?
    ensures Inv(ReceiveHead(s, me, space, sent))
  {
    InvTo(s, me);
    var e, peer, q, out := s.End(me), s.End(Other(me)), s.To(me), s.To(Other(me));
    TakeAckDirection(e, peer, out, q);
    LoseForth(peer, e, q, out, 0);
    LoseOrdered(q, 0);
    assert Without(q, 0) == q[1..];
    TakeAckReceiver(peer, e, q[1..], out, q[0].frame.number);
    TakeAckShape(s, me, space, sent);
    InvFrom(ReceiveHead(s, me, space, sent), me);
  }

  lemma TakeAckShape(s: Session, me: Side, space: Space, sent: bool)
    requires s.To(me) != [] && s.To(me)[0].frame.AckFrame?
    ensures var s' := ReceiveHead(s, me, space, sent);
            && s'.End(me) == Acknowledged(s.End(me), s.To(me)[0].frame.number) && s'.End(Other(me)) == s.End(Other(me))
            && s'.To(me) == s.To(me)[1..] && s'.To(Other(me)) == s.To(Other(me))
  {
  }

  /** The two-bit comparisons of `validateDatagram` decide exactly the comparison of unbounded numbers. */
  lemma ValidateIsExact(snd: Endpoint, rcv: Endpoint, forth: seq<Flight>, back: seq<Flight>, space: Space)
    requires Direction(snd, rcv, forth, back) && forth != [] && forth[0].frame.MessageFrame?
    ensures var f := forth[0];
            var verdict := Validate(rcv.regs, f.frame.number, f.frame.message, space);
            && |rcv.accepted| - 1 <= f.number <= |rcv.accepted|
            && (verdict == Accepted <==> f.number == |rcv.accepted| && HasRoom(f.frame.message, space))
            && (verdict == Duplicate <==> f.number == |rcv.accepted| - 1)
  {
    assert MessageOk(snd, rcv, forth[0]);
    Neighbours(forth[0].number, |rcv.accepted|);
  }

  function Received(e: Endpoint, message: Message): Endpoint {
    e.(regs := Accept(e.regs), accepted := e.accepted + [message])
  }

  lemma AcceptDirection(snd: Endpoint, rcv: Endpoint, forth: seq<Flight>, back: seq<Flight>)
    requires Direction(snd, rcv, forth, back) && Ordered(forth)
    requires forth != [] && forth[0].frame.MessageFrame? && forth[0].number == |rcv.accepted|
    ensures Direction(snd, Received(rcv, forth[0].frame.message), forth[1..], back)
  {
    var rcv' := Received(rcv, forth[0].frame.message);
    assert MessageOk(snd, rcv, forth[0]);
    forall i | 0 <= i < |forth| - 1 ensures MessageOk(snd, rcv', forth[1..][i]) {
      assert MessageOk(snd, rcv, forth[i + 1]);
    }
    forall i | 0 <= i < |back| ensures AckOk(snd, rcv', back[i]) {
      assert AckOk(snd, rcv, back[i]);
    }
    Neighbours(|rcv.accepted|, |rcv.accepted|);
  }

  lemma AcceptSender(snd: Endpoint, rcv: Endpoint, forth: seq<Flight>, back: seq<Flight>, message: Message)
    requires Direction(snd, rcv, forth, back)
    ensures Direction(Received(snd, message), rcv, forth, back)
  {
    var snd' := Received(snd, message);
    forall i | 0 <= i < |forth| ensures MessageOk(snd', rcv, forth[i]) {
      assert MessageOk(snd, rcv, forth[i]);
    }
    forall i | 0 <= i < |back| ensures AckOk(snd', rcv, back[i]) {
      assert AckOk(snd, rcv, back[i]);
    }
  }

  lemma AcceptInv(s: Session, me: Side, space: Space, sent: bool)
    requires Inv(s) && s.To(me) != [] && s.To(me)[0].frame.MessageFrame?
    ensures Inv(ReceiveHead(s, me, space, sent))
  {
    var e, peer, q, out := s.End(me), s.End(Other(me)), s.To(me), s.To(Other(me));
    ValidateIsExact(peer, e, q, out, space);
    LoseInv(s, me, 0);
    assert Without(q, 0) == q[1..];
    var rest := s.WithTo(me, q[1..]);
    match Validate(e.regs, q[0].frame.number, q[0].frame.message, space)
    case Bad =>
    case Duplicate =>
      EmitInv(rest, me, AckFlight(e), sent);
    case Accepted =>
      var e' := Received(e, q[0].frame.message);
      AcceptDirection(peer, e, q, out);
      AcceptSender(e, peer, out, q[1..], q[0].frame.message);
      EmitInv(rest.WithEnd(me, e'), me, AckFlight(e'), sent);
  }

  /** Every step of either endpoint or of the medium keeps the invariant. */
  lemma StepInv(s: Session, me: Side, action: Action, sent: bool)
    requires Inv(s) && Enabled(s, me, action)
    ensures Inv(Apply(s, me, action, sent))
  {
    var e := s.End(me);
    match action
    case Send(message) =>
      OfferInv(s, me, message);
      EmitInv(s.WithEnd(me, Offer(e, message)), me, Flight(MessageFrame(e.regs.txAckNumber, message), e.acked), sent);
    case SendHeartbeat =>
      OfferInv(s, me, Heartbeat);
      EmitInv(s.WithEnd(me, Offer(e, Heartbeat)), me, Flight(MessageFrame(e.regs.txAckNumber, Heartbeat), e.acked), sent);
    case Retransmit =>
      EmitInv(s, me, Flight(Again(e.regs), e.acked), sent);
    case Receive(space) =>
      if s.To(me)[0].frame.AckFrame? { TakeAckInv(s, me, space, sent); } else { AcceptInv(s, me, space, sent); }
    case Lose(index) =>
      LoseInv(s, me, index);
  }

  // ---------------------------------------------------------------------
  // Runs and what they guarantee
  // ---------------------------------------------------------------------

  datatype Event = Event(me: Side, action: Action, sent: bool)

  function Next(s: Session, e: Event): Option<Session> {
    if Enabled(s, e.me, e.action) then Some(Apply(s, e.me, e.action, e.sent)) else None
  }

  lemma RunInv(s: Session, events: seq<Event>, s': Session)
    requires Inv(s) && Runs.Leads(Next, s, events, s')
    ensures Inv(s')
  {
    forall t, e | Inv(t) && Next(t, e).Some? ensures Inv(Next(t, e).value) { StepInv(t, e.me, e.action, e.sent); }
    Runs.Preserved(Next, t => Inv(t), s, events, s');
  }

  /**
   Over any number of lost, repeated and delayed frames the receiver is never
   behind the sender and at most one number ahead, and it took each number
   once, as the message first sent under it or as a HEARTBEAT that replaced it.
   */
  lemma AtMostOnce(events: seq<Event>, s: Session, me: Side)
    requires Runs.Leads(Next, OPENED, events, s)
    ensures var snd, got := s.End(me), s.End(Other(me)).accepted;
            && snd.acked <= |got| <= snd.acked + 1
            && |got| <= |snd.offered| <= |got| + 1
            && forall n :: 0 <= n < |got| ==>
                 got[n] == snd.offered[n] || (got[n] == Heartbeat && n in snd.replaced)
  {
    OpenedInv();
    RunInv(OPENED, events, s);
    InOrder(s, me);
  }

  lemma InOrder(s: Session, me: Side)
    requires Inv(s)
    ensures var snd, got := s.End(me), s.End(Other(me)).accepted;
            && snd.acked <= |got| <= snd.acked + 1
            && |got| <= |snd.offered| <= |got| + 1
            && forall n :: 0 <= n < |got| ==>
                 got[n] == snd.offered[n] || (got[n] == Heartbeat && n in snd.replaced)
  {
    assert Toward(s, Other(me));
    var snd, got := s.End(me), s.End(Other(me)).accepted;
    forall n | 0 <= n < |got| ensures got[n] == snd.offered[n] || (got[n] == Heartbeat && n in snd.replaced) {
      assert Carries(snd, n, got[n]);
    }
  }

  /** The sender's number advances only past a number the receiver has taken. */
  lemma NoFalseAck(events: seq<Event>, s: Session, me: Side, action: Action, sent: bool)
    requires Runs.Leads(Next, OPENED, events, s) && Enabled(s, me, action)
    ensures var e, e' := s.End(me), Apply(s, me, action, sent).End(me);
            && (e'.regs.txAckNumber != e.regs.txAckNumber <==> e'.acked != e.acked)
            && (e'.acked != e.acked ==>
                  && e'.acked == e.acked + 1
                  && e.acked < |s.End(Other(me)).accepted|
                  && e.regs.outstanding.Some? && e'.regs.outstanding.None?)
  {
    OpenedInv();
    RunInv(OPENED, events, s);
    if action.Receive? && s.To(me)[0].frame.AckFrame? {
      InvTo(s, me);
      AckAdvances(s, me, action.space, sent);
    } else {
      OthersKeepNumber(s, me, action, sent);
    }
  }

  lemma OthersKeepNumber(s: Session, me: Side, action: Action, sent: bool)
    requires Enabled(s, me, action) && !(action.Receive? && s.To(me)[0].frame.AckFrame?)
    ensures var e, e' := s.End(me), Apply(s, me, action, sent).End(me);
            e'.regs.txAckNumber == e.regs.txAckNumber && e'.acked == e.acked
  {
  }

  lemma AckAdvances(s: Session, me: Side, space: Space, sent: bool)
    requires Toward(s, Other(me)) && s.To(me) != [] && s.To(me)[0].frame.AckFrame?
    ensures var e, e' := s.End(me), ReceiveHead(s, me, space, sent).End(me);
            && (e'.regs.txAckNumber != e.regs.txAckNumber <==> e'.acked != e.acked)
            && (e'.acked != e.acked ==>
                  && e'.acked == e.acked + 1
                  && e.acked < |s.End(Other(me)).accepted|
                  && e.regs.outstanding.Some? && e'.regs.outstanding.None?)
  {
    AckIsExact(s.End(me), s.End(Other(me)), s.To(Other(me)), s.To(me));
    assert ReceiveHead(s, me, space, sent).End(me) == Acknowledged(s.End(me), s.To(me)[0].frame.number);
  }

  /** Steps that start no HEARTBEAT over an unacknowledged message. */
  function PoliteNext(s: Session, e: Event): Option<Session> {
    if e.action.SendHeartbeat? && HoldsMessage(s.End(e.me).regs) then None else Next(s, e)
  }

  lemma StepReplaces(s: Session, me: Side, action: Action, sent: bool)
    requires Inv(s) && Enabled(s, me, action)
    ensures var s' := Apply(s, me, action, sent);
            && s'.End(Other(me)).replaced == s.End(Other(me)).replaced
            && s'.End(me).replaced == s.End(me).replaced
                 + (if action.SendHeartbeat? && HoldsMessage(s.End(me).regs) then {s.End(me).acked} else {})
  {
    InvTo(s, me);
    PeerReplacesNothing(s, me, action, sent);
    if action.SendHeartbeat? {
      OfferReplaces(s.End(me), s.End(Other(me)), s.To(Other(me)), s.To(me));
      HeartbeatEnd(s, me, sent);
    } else {
      OthersReplaceNothing(s, me, action, sent);
    }
  }

  lemma HeartbeatEnd(s: Session, me: Side, sent: bool)
    ensures Apply(s, me, SendHeartbeat, sent).End(me) == Offer(s.End(me), Heartbeat)
  {
  }

  lemma PeerReplacesNothing(s: Session, me: Side, action: Action, sent: bool)
    requires Enabled(s, me, action)
    ensures Apply(s, me, action, sent).End(Other(me)) == s.End(Other(me))
  {
  }

  lemma OthersReplaceNothing(s: Session, me: Side, action: Action, sent: bool)
    requires Enabled(s, me, action) && !action.SendHeartbeat?
    ensures Apply(s, me, action, sent).End(me).replaced == s.End(me).replaced
  {
  }

  lemma OfferReplaces(snd: Endpoint, rcv: Endpoint, forth: seq<Flight>, back: seq<Flight>)
    requires Direction(snd, rcv, forth, back)
    ensures Offer(snd, Heartbeat).replaced == snd.replaced + (if HoldsMessage(snd.regs) then {snd.acked} else {})
  {
  }

  lemma PoliteRun(s: Session, events: seq<Event>, s': Session)
    requires Inv(s) && Runs.Leads(PoliteNext, s, events, s')
    ensures Inv(s') && s'.left.replaced == s.left.replaced && s'.right.replaced == s.right.replaced
  {
    var inv := t => Inv(t) && t.left.replaced == s.left.replaced && t.right.replaced == s.right.replaced;
    forall t, e | inv(t) && PoliteNext(t, e).Some? ensures inv(PoliteNext(t, e).value) {
      StepInv(t, e.me, e.action, e.sent);
      StepReplaces(t, e.me, e.action, e.sent);
    }
    Runs.Preserved(PoliteNext, inv, s, events, s');
  }

  /**
   When no HEARTBEAT overwrites an unacknowledged message, what the receiver
   took is a prefix of what the sender sent, missing at most the last message.
   */
  lemma ReliableStream(events: seq<Event>, s: Session, me: Side)
    requires Runs.Leads(PoliteNext, OPENED, events, s)
    ensures var sent, got := s.End(me).offered, s.End(Other(me)).accepted;
            |got| <= |sent| <= |got| + 1 && got == sent[..|got|]
  {
    OpenedInv();
    PoliteRun(OPENED, events, s);
    InOrder(s, me);
  }

  lemma StepGrows(s: Session, e: Event, side: Side)
    requires Next(s, e).Some?
    ensures s.End(side).accepted <= Next(s, e).value.End(side).accepted
  {
  }

  lemma AcceptedGrows(s: Session, events: seq<Event>, s': Session, side: Side)
    requires Runs.Leads(Next, s, events, s')
    ensures s.End(side).accepted <= s'.End(side).accepted
  {
    var inv := (t: Session) => s.End(side).accepted <= t.End(side).accepted;
    forall t, e | inv(t) && Next(t, e).Some? ensures inv(Next(t, e).value) { StepGrows(t, e, side); }
    Runs.Preserved(Next, inv, s, events, s');
  }

  // ---------------------------------------------------------------------
  // When a HEARTBEAT loses a message
  // ---------------------------------------------------------------------

  /** Number n has reached `side` as `message`. */
  predicate Delivered(s: Session, side: Side, n: nat, message: Message) {
    n < |s.End(side).accepted| && s.End(side).accepted[n] == message
  }

  /** From `s` on, whatever happens, number n never reaches `side` as `message`. */
  ghost predicate NeverDelivered(s: Session, side: Side, n: nat, message: Message) {
    forall events, s' :: Runs.Leads(Next, s, events, s') ==> !Delivered(s', side, n, message)
  }

  /** A HEARTBEAT put on air by `me` in `s` can make the message it overwrites undeliverable. */
  ghost predicate CanLose(s: Session, me: Side)
    requires HoldsMessage(s.End(me).regs) && s.End(me).regs.outstanding.value.MessageFrame?
  {
    exists events, s' ::
      && Runs.Leads(Next, Apply(s, me, SendHeartbeat, true), events, s')
      && NeverDelivered(s', Other(me), s.End(me).acked, s.End(me).regs.outstanding.value.message)
  }

  lemma LoseFirst(s: Session, side: Side)
    requires s.To(side) != []
    ensures Next(s, Event(side, Lose(0), false)) == Some(s.WithTo(side, s.To(side)[1..]))
  {
    assert Without(s.To(side), 0) == s.To(side)[1..];
  }

  /** All frames but the newest on their way to `side` are lost. */
  lemma {:induction false} Drained(s: Session, side: Side) returns (events: seq<Event>, s': Session)
    requires s.To(side) != []
    ensures Runs.Leads(Next, s, events, s')
    ensures s' == s.WithTo(side, [s.To(side)[|s.To(side)| - 1]])
    decreases |s.To(side)|
  {
    if |s.To(side)| == 1 {
      events, s' := [], s;
      assert s.To(side) == [s.To(side)[0]];
    } else {
      var e := Event(side, Lose(0), false);
      LoseFirst(s, side);
      var mid := Next(s, e).value;
      Runs.One(Next, s, e);
      var more;
      more, s' := Drained(mid, side);
      events := [e] + more;
      Runs.Append(Next, s, [e], mid, more, s');
    }
  }

  lemma TakesHeartbeat(s: Session, me: Side, space: Space, sent: bool)
    requires Inv(s) && |s.To(Other(me))| == 1 && s.To(Other(me))[0].number == |s.End(Other(me)).accepted|
    requires s.To(Other(me))[0].frame.MessageFrame? && s.To(Other(me))[0].frame.message == Heartbeat
    ensures Delivered(Apply(s, Other(me), Receive(space), sent), Other(me), |s.End(Other(me)).accepted|, Heartbeat)
  {
    InvTo(s, Other(me));
    ValidateIsExact(s.End(me), s.End(Other(me)), s.To(Other(me)), s.To(me), space);
  }

  predicate EndsInHeartbeat(q: seq<Flight>, n: nat) {
    q != [] && var f := q[|q| - 1]; f.number == n && f.frame.MessageFrame? && f.frame.message == Heartbeat
  }

  /** When all frames before it are lost, the receiver takes the HEARTBEAT under its next number. */
  lemma HeartbeatArrives(s: Session, me: Side) returns (events: seq<Event>, s': Session)
    requires Inv(s) && EndsInHeartbeat(s.To(Other(me)), |s.End(Other(me)).accepted|)
    ensures Runs.Leads(Next, s, events, s')
    ensures Delivered(s', Other(me), |s.End(Other(me)).accepted|, Heartbeat)
  {
    var first, mid := Drained(s, Other(me));
    RunInv(s, first, mid);
    TakesHeartbeat(mid, me, Space(false, 0, 0), false);
    var e := Event(Other(me), Receive(Space(false, 0, 0)), false);
    s' := Next(mid, e).value;
    Runs.One(Next, mid, e);
    events := first + [e];
    Runs.Append(Next, s, first, mid, [e], s');
  }

  lemma HeartbeatTaken(s: Session, me: Side) returns (events: seq<Event>, s': Session)
    requires Inv(s) && HoldsMessage(s.End(me).regs)
    requires |s.End(Other(me)).accepted| == s.End(me).acked
    ensures Runs.Leads(Next, Apply(s, me, SendHeartbeat, true), events, s')
    ensures Delivered(s', Other(me), s.End(me).acked, Heartbeat)
  {
    StepInv(s, me, SendHeartbeat, true);
    HeartbeatOnAir(s, me);
    events, s' := HeartbeatArrives(Apply(s, me, SendHeartbeat, true), me);
  }

  lemma HeartbeatOnAir(s: Session, me: Side)
    ensures var sent := Apply(s, me, SendHeartbeat, true);
            && sent.To(Other(me)) == s.To(Other(me)) + [Flight(MessageFrame(s.End(me).regs.txAckNumber, Heartbeat), s.End(me).acked)]
            && sent.End(Other(me)) == s.End(Other(me)) && sent.End(me) == Offer(s.End(me), Heartbeat)
  {
  }

  lemma StaysDelivered(s: Session, side: Side, n: nat, message: Message, events: seq<Event>, s': Session)
    requires Delivered(s, side, n, message) && Runs.Leads(Next, s, events, s')
    ensures Delivered(s', side, n, message)
  {
    AcceptedGrows(s, events, s', side);
  }

  /** What the receiver has taken under the outstanding number is the outstanding message. */
  lemma TakenIsOutstanding(s: Session, me: Side)
    requires Inv(s) && HoldsMessage(s.End(me).regs) && |s.End(Other(me)).accepted| > s.End(me).acked
    ensures s.End(me).regs.outstanding.value.MessageFrame?
    ensures Delivered(s, Other(me), s.End(me).acked, s.End(me).regs.outstanding.value.message)
  {
    InvTo(s, Other(me));
    assert Carries(s.End(me), s.End(me).acked, s.End(Other(me)).accepted[s.End(me).acked]);
  }

  /**
   A HEARTBEAT started in any reachable state over an unacknowledged message can
   lose that message if and only if the peer has not taken it yet; if the peer
   has, the message is delivered whatever happens.
   */
  lemma HeartbeatLosesExactly(before: seq<Event>, s: Session, me: Side)
    requires Runs.Leads(Next, OPENED, before, s) && HoldsMessage(s.End(me).regs)
    ensures s.End(me).regs.outstanding.value.MessageFrame?
    ensures CanLose(s, me) <==> |s.End(Other(me)).accepted| == s.End(me).acked
  {
    OpenedInv();
    RunInv(OPENED, before, s);
    InvTo(s, Other(me));
    var you, n, sent := Other(me), s.End(me).acked, Apply(s, me, SendHeartbeat, true);
    var message := s.End(me).regs.outstanding.value.message;
    if |s.End(you).accepted| == n {
      var events, s' := HeartbeatTaken(s, me);
      forall more, later | Runs.Leads(Next, s', more, later) ensures !Delivered(later, you, n, message) {
        StaysDelivered(s', you, n, Heartbeat, more, later);
      }
      assert NeverDelivered(s', you, n, message);
    } else {
      TakenIsOutstanding(s, me);
      forall events, s' | Runs.Leads(Next, sent, events, s') ensures !NeverDelivered(s', you, n, message) {
        StaysDelivered(sent, you, n, message, events, s');
        assert Runs.Leads(Next, s', [], s');
      }
    }
  }
}
