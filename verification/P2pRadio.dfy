/** The point-to-point states of one radio: a pure transition function and the object that performs it. */
module P2pRadio {
  import opened Basics
  import opened Arq

  datatype State =
    | Resetting
    | LinkDown
    | WaitTxFindPartnerDone
    | WaitSyncClocks
    | WaitTxSyncClocksDone
    | WaitZeroAcks
    | WaitTxZeroAcksDone
    | LinkUp
    | LinkUpWaitTxDone

  /** A frame as `rcvDatagram` classifies it; `Unusable` fails a check or is not meant for this state machine. */
  datatype Datagram = FindPartner | SyncClocks | ZeroAcks | Numbered(frame: Frame) | Unusable

  /** Outcomes of the clock comparisons, buffer checks and transmit attempts one pass of the loop makes. */
  datatype Events = Events(
    now: nat,
    quiet: bool,             // receiveInProcess() is false
    sent: bool,              // the attempted transmission started
    findPartnerDue: bool,
    handshakeTimeout: bool,
    heartbeatDue: bool,
    retransmitDue: bool,
    resendAllowed: bool,
    linkTimeout: bool,
    command: Option<Message>,    // next piece of commandTXBuffer
    data: Option<seq<byte>>,     // bytes processWaitingSerial would cut from radioTxBuffer
    space: Space,
    keepsInbox: bool)        // a frame survives the radio reset unread
  {
    predicate Valid() {
      && now < 0x1_0000_0000
      && (command.Some? ==> command.value.RemoteCommand? || command.value.RemoteCommandResponse?)
    }
  }

  /**
   A radio between two passes of its loop.  `inbox` is a received frame not yet
   read, `air` a frame being transmitted, `host` every message handed to the
   serial or command buffers, `drawn` every message taken from them to be sent.
   */
  datatype Radio = Radio(
    state: State,
    regs: Registers,
    inbox: Option<Datagram>,
    air: Option<Datagram>,
    host: seq<Message>,
    drawn: seq<Message>)

  predicate Listening(state: State) {
    state.LinkDown? || state.WaitSyncClocks? || state.WaitZeroAcks? || state.LinkUp?
  }

  predicate Transmitting(state: State) {
    state.WaitTxFindPartnerDone? || state.WaitTxSyncClocksDone? || state.WaitTxZeroAcksDone? || state.LinkUpWaitTxDone?
  }

  predicate IsUp(state: State) {
    state.LinkUp? || state.LinkUpWaitTxDone?
  }

  /** What every radio keeps: it never listens, or holds an unread frame, while it transmits. */
  predicate HalfDuplex(r: Radio) {
    && (Listening(r.state) ==> r.air.None?)
    && (Transmitting(r.state) ==> r.inbox.None?)
    && (r.air.Some? ==> r.inbox.None?)
  }

  function Transmit(r: Radio, d: Datagram, next: State, sent: bool): Radio {
    if sent then r.(air := Some(d), state := next) else r
  }

  function BreakLink(r: Radio): Radio {
    r.(state := Resetting, regs := r.regs.(outstanding := None))
  }

  function EnterLinkUp(r: Radio): Radio {
    r.(state := LinkUp, regs := ZERO_REGISTERS)
  }

  function SendAck(r: Radio, sent: bool): Radio {
    Transmit(r, Numbered(AckFrame(r.regs.rxAckNumber)), LinkUpWaitTxDone, sent)
  }

  /** LINK_UP, a frame was received. */
  function ReceiveLinkUp(r: Radio, d: Datagram, ev: Events): Radio {
    match d
    case FindPartner => BreakLink(r)
    case Numbered(AckFrame(number)) => r.(regs := TakeAck(r.regs, number))
    case Numbered(MessageFrame(number, message)) =>
      (match Validate(r.regs, number, message, ev.space)
       case Bad => r
       case Duplicate => SendAck(r, ev.sent)
       case Accepted =>
         var host := if message.Heartbeat? then r.host else r.host + [message];
         SendAck(r.(regs := Accept(r.regs), host := host), ev.sent))
    case _ => r
  }

  /** First transmission of a message under the next number. */
  function FirstTransmit(r: Radio, message: Message, ev: Events): Radio {
    var r' := Transmit(r, Numbered(MessageFrame(r.regs.txAckNumber, message)), LinkUpWaitTxDone, ev.sent);
    r'.(regs := Launch(r.regs, message), drawn := if message.Heartbeat? then r.drawn else r.drawn + [message])
  }

  /** LINK_UP, nothing received: the transmit operations in priority order. */
  function TransmitLinkUp(r: Radio, ev: Events): Radio {
    if ev.heartbeatDue then FirstTransmit(r, Heartbeat, ev)
    else if r.regs.outstanding.Some? then
      if !ev.retransmitDue then r
      else if ev.resendAllowed then Transmit(r, Numbered(Again(r.regs)), LinkUpWaitTxDone, ev.sent)
      else BreakLink(r)
    else if ev.command.Some? then FirstTransmit(r, ev.command.value, ev)
    else if ev.data.Some? then FirstTransmit(r, Data(ev.data.value), ev)
    else r
  }

  function PassLinkDown(r: Radio, ev: Events): Radio {
    if r.inbox == Some(FindPartner) then
      Transmit(r.(inbox := None), SyncClocks, WaitTxSyncClocksDone, ev.sent)
    else if r.inbox.Some? then r.(inbox := None)
    else if ev.quiet && ev.findPartnerDue then Transmit(r, FindPartner, WaitTxFindPartnerDone, ev.sent)
    else r
  }

  function PassWaitSyncClocks(r: Radio, ev: Events): Radio {
    if r.inbox == Some(FindPartner) then
      Transmit(r.(inbox := None), SyncClocks, WaitTxSyncClocksDone, ev.sent)
    else if r.inbox == Some(SyncClocks) then
      Transmit(r.(inbox := None), ZeroAcks, WaitTxZeroAcksDone, ev.sent)
    else if r.inbox.Some? then r.(inbox := None)
    else if ev.handshakeTimeout then r.(state := LinkDown)
    else r
  }

  function PassWaitZeroAcks(r: Radio, ev: Events): Radio {
    if r.inbox == Some(ZeroAcks) then EnterLinkUp(r.(inbox := None))
    else if r.inbox.Some? then r.(inbox := None)
    else if ev.handshakeTimeout then r.(state := LinkDown)
    else r
  }

  function PassLinkUp(r: Radio, ev: Events): Radio {
    var r' :=
      if r.inbox.Some? then ReceiveLinkUp(r.(inbox := None), r.inbox.value, ev)
      else if ev.quiet then TransmitLinkUp(r, ev)
      else r;
    if ev.linkTimeout then BreakLink(r') else r'
  }

  /** One pass of `updateRadioState` in point-to-point mode. */
  function Update(r: Radio, ev: Events): Radio {
    match r.state
    case Resetting =>
      r.(state := LinkDown, regs := r.regs.(outstanding := None), air := None,
         inbox := if ev.keepsInbox then r.inbox else None)
    case LinkDown => PassLinkDown(r, ev)
    case WaitTxFindPartnerDone => if r.air.None? then r.(state := WaitSyncClocks) else r
    case WaitSyncClocks => PassWaitSyncClocks(r, ev)
    case WaitTxSyncClocksDone => if r.air.None? then r.(state := WaitZeroAcks) else r
    case WaitZeroAcks => PassWaitZeroAcks(r, ev)
    case WaitTxZeroAcksDone => if r.air.None? then EnterLinkUp(r) else r
    case LinkUpWaitTxDone => if r.air.None? then r.(state := LinkUp) else r
    case LinkUp => PassLinkUp(r, ev)
  }

  lemma UpdateHalfDuplex(r: Radio, ev: Events)
    requires HalfDuplex(r)
    ensures HalfDuplex(Update(r, ev))
  {
  }

  /** A pass hands at most one message to the host side, which it had room for, and draws at most one. */
  lemma OneMessageAPass(r: Radio, ev: Events)
    ensures var r' := Update(r, ev);
            && (r'.host == r.host || exists m :: r'.host == r.host + [m] && HasRoom(m, ev.space))
            && (r'.drawn == r.drawn || (ev.data.Some? && r'.drawn == r.drawn + [Data(ev.data.value)])
                || (ev.command.Some? && r'.drawn == r.drawn + [ev.command.value]))
            && (r.state.LinkUp? || (r'.host == r.host && r'.drawn == r.drawn))
  {
  }

  /**
   The radio as the firmware keeps it: global variables changed in place by the
   state machine and by the two interrupt causes.
   */
  class P2pRadio {
    var radioState: State
    var txAckNumber: Number
    var rmtTxAckNumber: Number
    var rxAckNumber: Number
    var ackTimer: nat
    var datagramTimer: nat
    var rexmtFrame: Frame             // rexmtBuffer and rexmtControl
    var transactionComplete: bool
    var incomingBuffer: Datagram
    var onAir: bool
    var outgoingPacket: Datagram
    ghost var host: seq<Message>
    ghost var drawn: seq<Message>

    ghost predicate Valid()
      reads this
    {
      && (Listening(radioState) ==> !onAir)
      && (Transmitting(radioState) ==> transactionComplete == !onAir)
      && (radioState.Resetting? && onAir ==> !transactionComplete)
      && (ackTimer == 0 || rexmtFrame.MessageFrame?)
      && 0 <= datagramTimer < 0x1_0000_0000
    }

    ghost function Regs(): Registers
      reads this
    {
      Registers(txAckNumber, rmtTxAckNumber, rxAckNumber, if ackTimer == 0 then None else Some(rexmtFrame))
    }

    ghost function View(): Radio
      reads this
    {
      Radio(radioState, Regs(),
            if !Transmitting(radioState) && transactionComplete then Some(incomingBuffer) else None,
            if onAir then Some(outgoingPacket) else None,
            host, drawn)
    }

    constructor ()
      ensures Valid()
      ensures View() == Radio(Resetting, ZERO_REGISTERS, None, None, [], [])
    {
      radioState := Resetting;
      txAckNumber, rmtTxAckNumber, rxAckNumber := 0, 0, 0;
      ackTimer, datagramTimer := 0, 0;
      rexmtFrame := AckFrame(0);
      transactionComplete, onAir := false, false;
      incomingBuffer, outgoingPacket := Unusable, Unusable;
      host, drawn := [], [];
    }

    /** Interrupt: a frame has been received while the radio listens. */
    method FrameArrives(d: Datagram)
      requires Valid() && Listening(radioState)
      modifies this
      ensures Valid() && View() == old(View()).(inbox := Some(d))
    {
      incomingBuffer := d;
      transactionComplete := true;
    }

    /** Interrupt: the transmission has ended. */
    method TransmissionEnds()
      requires Valid() && onAir && Transmitting(radioState)
      modifies this
      ensures Valid() && View() == old(View()).(air := None)
    {
      onAir := false;
      transactionComplete := true;
    }

    method StartAckTimer()
      requires Valid() && rexmtFrame.MessageFrame?
      modifies this`ackTimer
      ensures Valid() && ackTimer != 0
    {
      ackTimer := datagramTimer;
      if ackTimer == 0 {
        ackTimer := 0xFFFF_FFFF;
      }
    }

    /** `transmitDatagram`: false leaves nothing on air. */
    method TransmitDatagram(d: Datagram, ev: Events) returns (started: bool)
      requires Valid() && ev.Valid() && Listening(radioState) && !transactionComplete
      modifies this`onAir, this`outgoingPacket, this`datagramTimer
      ensures started == ev.sent && onAir == started
      ensures started ==> outgoingPacket == d && datagramTimer == ev.now
      ensures !started ==> outgoingPacket == old(outgoingPacket) && datagramTimer == old(datagramTimer)
    {
      if !ev.sent {
        return false;
      }
      outgoingPacket := d;
      onAir := true;
      datagramTimer := ev.now;
      return true;
    }

    /** Transmit, and wait for the end of the transmission when it started. */
    method TransmitThen(d: Datagram, next: State, ev: Events)
      requires Valid() && ev.Valid() && Listening(radioState) && !transactionComplete && Transmitting(next)
      modifies this`onAir, this`outgoingPacket, this`datagramTimer, this`radioState
      ensures Valid() && View() == Transmit(old(View()), d, next, ev.sent)
    {
      var started := TransmitDatagram(d, ev);
      if started {
        radioState := next;
      }
    }

    /** `breakLink`: the ACK timer stops and the radio goes through its reset. */
    method Break()
      requires Valid() && (Transmitting(radioState) ==> onAir)
      modifies this`ackTimer, this`radioState
      ensures Valid() && View() == BreakLink(old(View()))
    {
      ackTimer := 0;
      radioState := Resetting;
    }

    /** `enterLinkUp`, once the interrupt flag has been acknowledged. */
    method LinkIsUp()
      requires !onAir && !transactionComplete && 0 <= datagramTimer < 0x1_0000_0000
      modifies this`txAckNumber, this`rmtTxAckNumber, this`rxAckNumber, this`ackTimer, this`radioState
      ensures Valid() && View() == EnterLinkUp(old(View()))
    {
      rmtTxAckNumber := 0;
      rxAckNumber := 0;
      txAckNumber := 0;
      ackTimer := 0;
      radioState := LinkUp;
    }

    method ValidateDatagram(number: Number, message: Message, space: Space) returns (verdict: Verdict)
      modifies this`rxAckNumber, this`rmtTxAckNumber
      ensures verdict == Validate(old(Regs()), number, message, space)
      ensures Regs() == if verdict.Accepted? then Accept(old(Regs())) else old(Regs())
    {
      if number != rmtTxAckNumber {
        if number == Pred4(rmtTxAckNumber) {
          return Duplicate;
        }
        return Bad;
      }
      if !HasRoom(message, space) {
        return Bad;
      }
      rxAckNumber := rmtTxAckNumber;
      rmtTxAckNumber := Succ4(rmtTxAckNumber);
      return Accepted;
    }

    method P2pSendAck(ev: Events)
      requires Valid() && ev.Valid() && radioState.LinkUp? && !transactionComplete
      modifies this`onAir, this`outgoingPacket, this`datagramTimer, this`radioState
      ensures Valid() && View() == SendAck(old(View()), ev.sent)
    {
      TransmitThen(Numbered(AckFrame(rxAckNumber)), LinkUpWaitTxDone, ev);
    }

    /** LINK_UP after `rcvDatagram` has cleared `transactionComplete`. */
    method ProcessReceived(ev: Events)
      requires Valid() && ev.Valid() && radioState.LinkUp? && !transactionComplete
      modifies this
      ensures Valid() && View() == ReceiveLinkUp(old(View()), old(incomingBuffer), ev)
    {
      match incomingBuffer
      case FindPartner =>
        Break();
      case Numbered(AckFrame(number)) =>
        if number == txAckNumber {
          txAckNumber := Succ4(txAckNumber);
          ackTimer := 0;
        }
      case Numbered(MessageFrame(number, message)) =>
        var verdict := ValidateDatagram(number, message, ev.space);
        if verdict.Accepted? && !message.Heartbeat? {
          host := host + [message];
        }
        if !verdict.Bad? {
          P2pSendAck(ev);
        }
      case _ =>
    }

    /** Transmit a message for the first time, then SAVE_TX_BUFFER and START_ACK_TIMER. */
    method SendAndSave(message: Message, ev: Events)
      requires Valid() && ev.Valid() && radioState.LinkUp? && !transactionComplete
      modifies this
      ensures Valid() && View() == FirstTransmit(old(View()), message, ev)
    {
      var frame := MessageFrame(txAckNumber, message);
      TransmitThen(Numbered(frame), LinkUpWaitTxDone, ev);
      rexmtFrame := frame;
      StartAckTimer();
      if !message.Heartbeat? {
        drawn := drawn + [message];
      }
    }

    method ProcessTransmit(ev: Events)
      requires Valid() && ev.Valid() && radioState.LinkUp? && !transactionComplete
      modifies this
      ensures Valid() && View() == TransmitLinkUp(old(View()), ev)
    {
      if ev.heartbeatDue {
        SendAndSave(Heartbeat, ev);
      } else if ackTimer != 0 {
        if ev.retransmitDue {
          if ev.resendAllowed {
            var again := if rexmtFrame.message.Heartbeat? then MessageFrame(txAckNumber, Heartbeat) else rexmtFrame;
            TransmitThen(Numbered(again), LinkUpWaitTxDone, ev);
            StartAckTimer();
          } else {
            Break();
          }
        }
      } else if ev.command.Some? {
        SendAndSave(ev.command.value, ev);
      } else if ev.data.Some? {
        SendAndSave(Data(ev.data.value), ev);
      }
    }

    method UpdateLinkDown(ev: Events)
      requires Valid() && ev.Valid() && radioState.LinkDown?
      modifies this
      ensures Valid() && View() == PassLinkDown(old(View()), ev)
    {
      if transactionComplete {
        transactionComplete := false;
        if incomingBuffer.FindPartner? {
          TransmitThen(SyncClocks, WaitTxSyncClocksDone, ev);
        }
      } else if ev.quiet && ev.findPartnerDue {
        TransmitThen(FindPartner, WaitTxFindPartnerDone, ev);
      }
    }

    method UpdateWaitSyncClocks(ev: Events)
      requires Valid() && ev.Valid() && radioState.WaitSyncClocks?
      modifies this
      ensures Valid() && View() == PassWaitSyncClocks(old(View()), ev)
    {
      if transactionComplete {
        transactionComplete := false;
        if incomingBuffer.FindPartner? {
          TransmitThen(SyncClocks, WaitTxSyncClocksDone, ev);
        } else if incomingBuffer.SyncClocks? {
          TransmitThen(ZeroAcks, WaitTxZeroAcksDone, ev);
        }
      } else if ev.handshakeTimeout {
        radioState := LinkDown;
      }
    }

    method UpdateWaitZeroAcks(ev: Events)
      requires Valid() && ev.Valid() && radioState.WaitZeroAcks?
      modifies this
      ensures Valid() && View() == PassWaitZeroAcks(old(View()), ev)
    {
      if transactionComplete {
        transactionComplete := false;
        if incomingBuffer.ZeroAcks? {
          LinkIsUp();
        }
      } else if ev.handshakeTimeout {
        radioState := LinkDown;
      }
    }

    method UpdateLinkUp(ev: Events)
      requires Valid() && ev.Valid() && radioState.LinkUp?
      modifies this
      ensures Valid() && View() == PassLinkUp(old(View()), ev)
    {
      if transactionComplete {
        transactionComplete := false;
        ProcessReceived(ev);
      } else if ev.quiet {
        ProcessTransmit(ev);
      }
      if ev.linkTimeout {
        Break();
      }
    }

    /** `transactionComplete` acknowledges the end of a transmission: listen in the next state. */
    method TransmitDone(next: State)
      requires Valid() && Transmitting(radioState) && transactionComplete && Listening(next)
      modifies this`transactionComplete, this`radioState
      ensures Valid() && View() == old(View()).(state := next)
    {
      transactionComplete := false;
      radioState := next;
    }

    /** RADIO_RESET. */
    method Reset(ev: Events)
      requires Valid() && radioState.Resetting?
      modifies this`ackTimer, this`onAir, this`transactionComplete, this`radioState
      ensures Valid() && View() == Update(old(View()), ev)
    {
      ackTimer := 0;
      onAir := false;
      if !ev.keepsInbox {
        transactionComplete := false;
      }
      radioState := LinkDown;
    }

    /** The states that wait for the end of a transmission. */
    method UpdateTransmitting(ev: Events)
      requires Valid() && Transmitting(radioState)
      modifies this
      ensures Valid() && View() == Update(old(View()), ev)
    {
      if transactionComplete {
        match radioState
        case WaitTxFindPartnerDone => TransmitDone(WaitSyncClocks);
        case WaitTxSyncClocksDone => TransmitDone(WaitZeroAcks);
        case WaitTxZeroAcksDone =>
          transactionComplete := false;
          LinkIsUp();
        case LinkUpWaitTxDone => TransmitDone(LinkUp);
      }
    }

    /** One pass of the state machine performs exactly one application of `Update`. */
    method UpdateRadioState(ev: Events)
      requires Valid() && ev.Valid()
      modifies this
      ensures Valid() && View() == Update(old(View()), ev)
    {
      if Transmitting(radioState) {
        UpdateTransmitting(ev);
      } else {
        match radioState
        case Resetting => Reset(ev);
        case LinkDown => UpdateLinkDown(ev);
        case WaitSyncClocks => UpdateWaitSyncClocks(ev);
        case WaitZeroAcks => UpdateWaitZeroAcks(ev);
        case LinkUp => UpdateLinkUp(ev);
      }
    }
  }
}
