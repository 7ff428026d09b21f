/**
 The virtual-circuit states of `updateRadioState`: what one pass makes of the
 circuit table and of the one message waiting for its ACK, as a function, and
 the class that performs it on the firmware's variables.
 */
module VcRadio {
  import opened Basics
  import opened VcCircuits

  const VC_BROADCAST := -1
  const VC_UNASSIGNED := -3

  /** RADIO_VC_WAIT_TX_DONE, RADIO_VC_WAIT_SERVER and RADIO_VC_WAIT_RECEIVE. */
  datatype VcRadioState = WaitTxDone | WaitServer | WaitReceive

  datatype Settings = Settings(server: bool, heartbeatTimeout: nat, maxResends: nat)

  datatype Node = Node(
    circuits: seq<Circuit>,
    state: VcRadioState,
    myVc: int,                  // VC_UNASSIGNED until the server has assigned a number
    ackTimer: nat,              // not zero while a message waits for its ACK
    txDestVc: int,              // destination of the latest transmission
    rexmtTxDestVc: int,         // destination of the message waiting for its ACK
    rexmtFrameSentCount: nat,
    rmtCmdVc: Option<int>)      // who gets the command responses, once there was a remote command

  /**
   A received frame.  `alive` is the answer of `vcIdToAddressByte`, `mine` says
   that a HEARTBEAT carries this radio's own ID.
   */
  datatype Frame =
    | BadFrame(src: int)
    | Heartbeat(src: int, alive: int, mine: bool)
    | DataFrame(src: int, number: Number, duplicate: bool)       // also a command response
    | RemoteCommand(src: int, number: Number)
    | BroadcastData(src: int)
    | DataAck(src: int, number: Number)
    | UnknownAcks(src: int)
    | SyncAcks(src: int)
    | ZeroAcks(src: int)

  /** What the host's next message asks for; `ToCircuit` is data or a remote command. */
  datatype HostMessage = NoMessage | ToAll | ToCircuit(dest: nat) | TooLong(dest: nat)

  /**
   What a pass of RADIO_VC_WAIT_RECEIVE finds: a frame, a reception in process, or
   neither.  `free` says that the receiver lets a transmission start, `clock` is
   the nonzero value a started ACK timer gets.
   */
  datatype Activity =
    | Received(frame: Frame, free: bool)
    | Receiving
    | Idle(heartbeatDue: bool, ackDue: bool, response: bool, interrupted: bool, handshakeDue: bool,
           message: HostMessage, free: bool, clock: nat)

  predicate Sized(n: Node, now: nat) {
    && |n.circuits| == MAX_VC && now < MILLIS
    && (forall i :: 0 <= i < MAX_VC ==> n.circuits[i].lastTrafficMillis < MILLIS)
  }

  /**
   Frames that are neither broadcast nor refused are addressed to this radio's
   number and come from another one.
   */
  predicate Arrives(n: Node, f: Frame)
    requires |n.circuits| == MAX_VC
  {
    match f
    case BadFrame(src) => -128 <= src < 128
    case Heartbeat(src, alive, _) => (0 <= src < MAX_VC || src == VC_UNASSIGNED) && -3 <= alive < MAX_VC
    case BroadcastData(src) => 0 <= src < MAX_VC
    case DataFrame(src, number, duplicate) =>
      && Addressed(n, src)
      && number == if duplicate then Pred4(n.circuits[src].rmtTxAckNumber) else n.circuits[src].rmtTxAckNumber
    case RemoteCommand(src, number) => Addressed(n, src) && number == n.circuits[src].rmtTxAckNumber
    case DataAck(src, number) => Addressed(n, src) && number == n.circuits[src].txAckNumber
    case _ => Addressed(n, f.src)
  }

  /** The circuits that the processing of the frame touches exist. */
  predicate InTable(f: Frame) {
    match f
    case BadFrame(_) => true
    case BroadcastData(_) => true
    case Heartbeat(_, alive, _) => alive < MAX_VC
    case _ => 0 <= f.src < MAX_VC
  }

  predicate Addressed(n: Node, src: int) {
    0 <= src < MAX_VC && src != n.myVc && n.myVc != VC_UNASSIGNED
  }

  predicate Possible(n: Node, a: Activity)
    requires |n.circuits| == MAX_VC
  {
    match a
    case Received(frame, _) => Arrives(n, frame)
    case Receiving => true
    case Idle(_, _, response, _, _, message, _, clock) =>
      && clock != 0
      && (response ==> n.rmtCmdVc.Some?)
      && (message.ToCircuit? ==> message.dest < MAX_VC)
      && (message.TooLong? ==> message.dest < MAX_VC)
  }

  function Changed(n: Node, vc: nat, c: Circuit): Node
    requires vc < |n.circuits|
  {
    n.(circuits := n.circuits[vc := c])
  }

  /** The circuit of every address but those from -32 to -1 has seen traffic. */
  function Refreshed(n: Node, src: int, now: nat): Node
    requires |n.circuits| == MAX_VC
  {
    if -MAX_VC <= src <= -1 then n
    else Changed(n, src % MAX_VC, n.circuits[src % MAX_VC].(lastTrafficMillis := now))
  }

  // ---------------------------------------------------------------------
  // Transmission
  // ---------------------------------------------------------------------

  /** `retransmitDatagram` starts: the receiver is idle and the circuit is not down. */
  predicate Permitted(n: Node, dest: int, free: bool)
    requires |n.circuits| == MAX_VC
  {
    free && (dest == VC_BROADCAST || dest == VC_UNASSIGNED || !n.circuits[dest % MAX_VC].vcState.LinkDown?)
  }

  /** `transmitDatagram` notes the destination first, and may then be refused. */
  function Transmitted(n: Node, dest: int, free: bool): Node
    requires |n.circuits| == MAX_VC
  {
    n.(txDestVc := dest, state := if Permitted(n, dest, free) then WaitTxDone else n.state)
  }

  /** A message that needs an ACK is saved and timed even if its transmission was refused. */
  function Saved(n: Node, dest: int, free: bool, clock: nat): Node
    requires |n.circuits| == MAX_VC
  {
    Transmitted(n, dest, free).(
      ackTimer := clock, rexmtTxDestVc := dest, rexmtFrameSentCount := if Permitted(n, dest, free) then 1 else 0)
  }

  // ---------------------------------------------------------------------
  // A received frame
  // ---------------------------------------------------------------------

  /** The numbers of a circuit after `rcvDatagram`. */
  function Numbered(c: Circuit, f: Frame): Circuit {
    match f
    case DataFrame(_, number, false) => c.(rxAckNumber := number, rmtTxAckNumber := Succ4(number))
    case RemoteCommand(_, number) => c.(rxAckNumber := number, rmtTxAckNumber := Succ4(number))
    case DataAck(_, number) => c.(txAckNumber := Succ4(number))
    case _ => c
  }

  function Validated(n: Node, f: Frame): Node
    requires |n.circuits| == MAX_VC
  {
    if 0 <= f.src < MAX_VC then Changed(n, f.src, Numbered(n.circuits[f.src], f)) else n
  }

  /** `vcReceiveHeartbeat`; the server answers a client without a number. */
  function HeartbeatHeard(cfg: Settings, n: Node, src: int, alive: int, mine: bool, free: bool): Node
    requires |n.circuits| == MAX_VC && alive < MAX_VC
  {
    var m := if mine && n.myVc == VC_UNASSIGNED then n.(myVc := src) else n;
    if alive < 0 then m
    else
      var revived := Changed(m, alive, OnHeartbeat(m.circuits[alive]));
      if cfg.server && src == VC_UNASSIGNED then Transmitted(revived, VC_BROADCAST, free) else revived
  }

  function Handled(cfg: Settings, n: Node, f: Frame, free: bool): Node
    requires |n.circuits| == MAX_VC && InTable(f)
  {
    match f
    case BadFrame(_) => n
    case BroadcastData(_) => n
    case Heartbeat(src, alive, mine) => HeartbeatHeard(cfg, n, src, alive, mine, free)
    case DataFrame(src, _, _) => Transmitted(n, src, free)
    case RemoteCommand(src, _) => Transmitted(n, src, free).(rmtCmdVc := Some(src))
    case DataAck(_, _) => n.(ackTimer := 0)
    case UnknownAcks(src) =>
      var m := Transmitted(n, src, free);
      Changed(m, src, OnUnknownAcks(m.circuits[src]))
    case SyncAcks(src) =>
      Changed(Transmitted(n, src, free), src, OnSyncAcks(n.circuits[src], Permitted(n, src, free)))
    case ZeroAcks(src) => Changed(n, src, OnZeroAcks(n.circuits[src]))
  }

  // ---------------------------------------------------------------------
  // The transmit priorities
  // ---------------------------------------------------------------------

  /** Priority 1: a HEARTBEAT, which also counts as traffic of the own circuit. */
  function HeartbeatSent(n: Node, free: bool, now: nat): Node
    requires |n.circuits| == MAX_VC
  {
    var m := Transmitted(n, VC_BROADCAST, free);
    if free && 0 <= n.myVc < MAX_VC then Refreshed(m, n.myVc, now) else m
  }

  /** Priority 2: an ACK is outstanding; `due` is the timeout comparison. */
  function AckAwaited(cfg: Settings, n: Node, due: bool, free: bool, clock: nat): Node
    requires |n.circuits| == MAX_VC && 0 <= n.rexmtTxDestVc < MAX_VC
  {
    var dest := n.rexmtTxDestVc;
    var m := n.(txDestVc := dest);
    if n.circuits[dest].vcState.LinkDown? then m.(ackTimer := 0)
    else if !due then m
    else if cfg.maxResends == 0 || n.rexmtFrameSentCount < cfg.maxResends then
      m.(rexmtFrameSentCount := (n.rexmtFrameSentCount + 1) % 0x100, ackTimer := clock,
         state := if free then WaitTxDone else n.state)
    else Changed(m, dest, OnRetriesExhausted(n.circuits[dest])).(ackTimer := 0)
  }

  function RetryOf(n: Node): RetryState
    requires 0 <= n.rexmtTxDestVc < |n.circuits|
  {
    RetryState(n.ackTimer != 0, n.rexmtFrameSentCount, n.circuits[n.rexmtTxDestVc])
  }

  lemma AwaitIsRetry(cfg: Settings, n: Node, due: bool, free: bool, clock: nat)
    requires |n.circuits| == MAX_VC && 0 <= n.rexmtTxDestVc < MAX_VC && n.ackTimer != 0 && clock != 0
    ensures RetryOf(AckAwaited(cfg, n, due, free, clock)) == RetryPass(RetryOf(n), due, cfg.maxResends)
  {
  }

  /** The first circuit being connected, if any. */
  function FirstConnecting(circuits: seq<Circuit>, start: nat): (i: nat)
    requires start <= |circuits|
    ensures start <= i <= |circuits| && (i < |circuits| ==> Connecting(circuits[i]))
    ensures forall k :: start <= k < i ==> !Connecting(circuits[k])
    decreases |circuits| - start
  {
    if start == |circuits| || Connecting(circuits[start]) then start else FirstConnecting(circuits, start + 1)
  }

  /** Priority 4: one step of the handshake of circuit `index`. */
  function Shaken(n: Node, index: nat, due: bool, free: bool): Node
    requires |n.circuits| == MAX_VC && index < MAX_VC
  {
    var c := n.circuits[index];
    if c.vcState.SendUnknownAcks? || c.vcState.LinkAlive? then
      if Permitted(n, index, free) then Changed(Transmitted(n, index, free), index, ChangeState(c, WaitSyncAcks))
      else Transmitted(n, index, free)
    else if due then Transmitted(n, index, free)
    else n
  }

  /** Lowest priority: the host's next message; one that is too long costs its destination the link. */
  function HostServed(n: Node, message: HostMessage, free: bool, clock: nat): Node
    requires |n.circuits| == MAX_VC
    requires message.ToCircuit? || message.TooLong? ==> message.dest < MAX_VC
  {
    match message
    case NoMessage => n
    case ToAll => Transmitted(n, VC_BROADCAST, free)
    case ToCircuit(dest) =>
      if dest == n.myVc || !n.circuits[dest].vcState.Connected? then n else Saved(n, dest, free, clock)
    case TooLong(dest) => Broken(n, dest)
  }

  /** `vcBreakLink` of a circuit number. */
  function Broken(n: Node, vc: nat): Node
    requires |n.circuits| == MAX_VC && vc < MAX_VC
  {
    var m := if n.txDestVc == vc then n.(ackTimer := 0) else n;
    if vc == n.myVc then m else Changed(m, vc, OnLinkBreak(n.circuits[vc]))
  }

  function Served(cfg: Settings, n: Node, a: Activity, now: nat): Node
    requires |n.circuits| == MAX_VC && a.Idle? && Possible(n, a) && (n.ackTimer != 0 ==> 0 <= n.rexmtTxDestVc < MAX_VC)
  {
    if a.heartbeatDue then HeartbeatSent(n, a.free, now)
    else if n.ackTimer != 0 then AckAwaited(cfg, n, a.ackDue, a.free, a.clock)
    else if a.response then Saved(n, n.rmtCmdVc.value, a.free, a.clock)
    else
      var index := FirstConnecting(n.circuits, 0);
      if index == MAX_VC then HostServed(n, a.message, a.free, a.clock)
      else if a.interrupted then n
      else Shaken(n, index, a.handshakeDue, a.free)
  }

  // ---------------------------------------------------------------------
  // One pass
  // ---------------------------------------------------------------------

  /** A frame, or the transmit priorities. */
  function Acted(cfg: Settings, n: Node, a: Activity, now: nat): Node
    requires |n.circuits| == MAX_VC && Possible(n, a) && (n.ackTimer != 0 ==> 0 <= n.rexmtTxDestVc < MAX_VC)
  {
    match a
    case Received(frame, free) => FrameReceived(cfg, n, frame, free, now)
    case Receiving => n
    case Idle(_, _, _, _, _, _, _, _) => Served(cfg, n, a, now)
  }

  function FrameReceived(cfg: Settings, n: Node, f: Frame, free: bool, now: nat): Node
    requires |n.circuits| == MAX_VC && Arrives(n, f)
  {
    var m := Refreshed(Validated(n, f), f.src, now);
    Handled(cfg, m, f, free)
  }

  /** The timeout sweep at the end of the pass. */
  function Aged(cfg: Settings, n: Node, now: nat): Node
    requires Sized(n, now)
  {
    var lost := ServerLost(n.circuits[VC_SERVER], n.myVc, now, cfg.heartbeatTimeout);
    n.(circuits := seq(MAX_VC, i requires 0 <= i < MAX_VC => Swept(n.circuits[i], i, n.myVc, lost, now, cfg.heartbeatTimeout)),
       ackTimer := if TimerStops(n.circuits, n.txDestVc, n.myVc, now, cfg.heartbeatTimeout) then 0 else n.ackTimer,
       state := if lost then WaitServer else n.state)
  }

  lemma SweptIsAged(cfg: Settings, n: Node, now: nat, circuits: seq<Circuit>)
    requires Sized(n, now) && |circuits| == MAX_VC
    requires var lost := ServerLost(n.circuits[VC_SERVER], n.myVc, now, cfg.heartbeatTimeout);
             forall i :: 0 <= i < MAX_VC ==> circuits[i] == Swept(n.circuits[i], i, n.myVc, lost, now, cfg.heartbeatTimeout)
    ensures circuits == Aged(cfg, n, now).circuits
  {
  }

  /** A pass of RADIO_VC_WAIT_RECEIVE. */
  function Pass(cfg: Settings, n: Node, a: Activity, now: nat): Node
    requires Sized(n, now) && Possible(n, a) && (n.ackTimer != 0 ==> 0 <= n.rexmtTxDestVc < MAX_VC)
  {
    ActedSized(cfg, n, a, now);
    Aged(cfg, Acted(cfg, n, a, now), now)
  }

  lemma ReceivedSized(cfg: Settings, n: Node, f: Frame, free: bool, now: nat)
    requires Sized(n, now) && Arrives(n, f)
    ensures Sized(FrameReceived(cfg, n, f, free, now), now)
  {
    var m := Refreshed(Validated(n, f), f.src, now);
    assert Sized(m, now);
    HandledSized(cfg, m, f, free, now);
  }

  lemma HandledSized(cfg: Settings, n: Node, f: Frame, free: bool, now: nat)
    requires Sized(n, now) && InTable(f)
    ensures Sized(Handled(cfg, n, f, free), now)
  {
  }

  lemma ServedSized(cfg: Settings, n: Node, a: Activity, now: nat)
    requires Sized(n, now) && a.Idle? && Possible(n, a) && (n.ackTimer != 0 ==> 0 <= n.rexmtTxDestVc < MAX_VC)
    ensures Sized(Served(cfg, n, a, now), now)
  {
  }

  lemma ActedSized(cfg: Settings, n: Node, a: Activity, now: nat)
    requires Sized(n, now) && Possible(n, a) && (n.ackTimer != 0 ==> 0 <= n.rexmtTxDestVc < MAX_VC)
    ensures Sized(Acted(cfg, n, a, now), now)
  {
    match a
    case Received(frame, free) => ReceivedSized(cfg, n, frame, free, now);
    case Receiving =>
    case Idle(_, _, _, _, _, _, _, _) => ServedSized(cfg, n, a, now);
  }

  /** RADIO_VC_WAIT_TX_DONE: the transmission is complete. */
  function TransmissionDone(n: Node): Node
    requires |n.circuits| == MAX_VC
  {
    n.(state := if n.circuits[VC_SERVER].vcState.LinkDown? then WaitServer else WaitReceive)
  }

  /** RADIO_VC_WAIT_SERVER: only the server's HEARTBEAT leads on. */
  function ServerAwaited(cfg: Settings, n: Node, f: Frame, free: bool, now: nat): Node
    requires |n.circuits| == MAX_VC && Arrives(n, f)
  {
    if n.myVc == VC_SERVER then n.(state := WaitReceive)
    else if f.Heartbeat? && f.src == VC_SERVER then FrameReceived(cfg, n, f, free, now).(state := WaitReceive)
    else Validated(n, f)
  }

  /** RADIO_RESET: a server gives itself number 0, and the first HEARTBEAT goes out. */
  function PowerUp(server: bool): (n: Node)
    ensures |n.circuits| == MAX_VC
    ensures forall i :: 0 <= i < MAX_VC ==> n.circuits[i] == if server && i == VC_SERVER then DOWN.(vcState := LinkAlive) else DOWN
  {
    Node(seq(MAX_VC, i => if server && i == VC_SERVER then DOWN.(vcState := LinkAlive) else DOWN),
         WaitTxDone, if server then VC_SERVER else VC_UNASSIGNED, 0, VC_BROADCAST, 0, 0, None)
  }

  const DOWN := Circuit(LinkDown, false, 0, 0, 0, 0)

  /** A node's view of the other radios, with the retransmit state of its one outstanding message. */
  class VirtualCircuits {
    const list: array<Circuit>
    var vcConnecting: nat
    var myVc: int
    var radioState: VcRadioState
    var ackTimer: nat
    var txDestVc: int
    var rexmtTxDestVc: int
    var rexmtFrameSentCount: nat
    var rmtCmdVc: Option<int>
    const settings: Settings

    ghost function View(): Node
      reads this, list
    {
      Node(list[..], radioState, myVc, ackTimer, txDestVc, rexmtTxDestVc, rexmtFrameSentCount, rmtCmdVc)
    }

    /** Bit i of `vcConnecting` is set exactly for the circuits being connected. */
    ghost predicate Valid()
      reads this, list
    {
      && list.Length == MAX_VC
      && (forall i :: 0 <= i < MAX_VC ==> (IsSet(vcConnecting, i) <==> Connecting(list[i])))
      && (forall i :: 0 <= i < MAX_VC ==> list[i].lastTrafficMillis < MILLIS)
      && vcConnecting < Power2(MAX_VC) && rexmtFrameSentCount < 0x100 && settings.maxResends < 0x100
    }

    /** RADIO_RESET of a radio just switched on. */
    constructor (settings: Settings)
      requires settings.maxResends < 0x100
      ensures Valid() && fresh(list) && this.settings == settings && View() == PowerUp(settings.server)
    {
      this.settings := settings;
      var circuits := new Circuit[MAX_VC](_ => DOWN);
      if settings.server {
        circuits[VC_SERVER] := DOWN.(vcState := LinkAlive);
      }
      forall i | 0 <= i < MAX_VC ensures !IsSet(0, i) { NoneSet(i); }
      assert circuits[..] == PowerUp(settings.server).circuits;
      list := circuits;
      vcConnecting, rmtCmdVc, radioState := 0, None, WaitTxDone;
      myVc := if settings.server then VC_SERVER else VC_UNASSIGNED;
      ackTimer, txDestVc, rexmtTxDestVc, rexmtFrameSentCount := 0, VC_BROADCAST, 0, 0;
    }

    /** Valid, except that the bit of circuit `vc` may be out of date. */
    ghost predicate ValidBut(vc: nat)
      reads this, list
    {
      && list.Length == MAX_VC
      && (forall i :: 0 <= i < MAX_VC && i != vc ==> (IsSet(vcConnecting, i) <==> Connecting(list[i])))
      && (forall i :: 0 <= i < MAX_VC ==> list[i].lastTrafficMillis < MILLIS)
      && vcConnecting < Power2(MAX_VC) && rexmtFrameSentCount < 0x100 && settings.maxResends < 0x100
    }

    /** The bit of circuit `vc` is set or cleared; all other bits stay. */
    method UpdateBit(vc: nat, connecting: bool)
      requires vc < MAX_VC && ValidBut(vc)
      modifies this`vcConnecting
      ensures ValidBut(vc) && IsSet(vcConnecting, vc) == connecting
      ensures forall i :: 0 <= i < MAX_VC && i != vc ==> IsSet(vcConnecting, i) == old(IsSet(vcConnecting, i))
    {
      Width(vcConnecting, vc, MAX_VC);
      if connecting {
        RaisedBits(vcConnecting, vc);
        vcConnecting := Raise(vcConnecting, vc);
      } else {
        LoweredBits(vcConnecting, vc);
        vcConnecting := Lower(vcConnecting, vc);
      }
    }

    /** `vcChangeState`: no other circuit and no other bit changes. */
    method ChangeStateOf(vc: nat, state: VcState)
      requires vc < MAX_VC && ValidBut(vc) && (Valid() || state != list[vc].vcState)
      modifies this`vcConnecting, list
      ensures Valid()
      ensures list[..] == old(list[..])[vc := ChangeState(old(list[vc]), state)]
      ensures forall i :: 0 <= i < MAX_VC && i != vc ==> IsSet(vcConnecting, i) == old(IsSet(vcConnecting, i))
    {
      if state == list[vc].vcState {
        return;
      }
      list[vc] := list[vc].(vcState := state);
      UpdateBit(vc, (!state.LinkDown? && !state.LinkAlive? && !state.Connected?) || (list[vc].wasConnected && state.LinkAlive?));
      if state.Connected? {
        list[vc] := list[vc].(wasConnected := false);
      }
    }

    /** `vcZeroAcks`. */
    method ZeroAcks(vc: nat)
      requires Valid() && vc < MAX_VC
      modifies list
      ensures Valid() && list[..] == old(list[..])[vc := ZeroNumbers(old(list[vc]))]
    {
      list[vc] := list[vc].(txAckNumber := 0, rmtTxAckNumber := 0, rxAckNumber := 0);
    }

    method ReceiveUnknownAcks(src: nat)
      requires Valid() && src < MAX_VC
      modifies this`vcConnecting, list
      ensures Valid() && list[..] == old(list[..])[src := OnUnknownAcks(old(list[src]))]
    {
      ChangeStateOf(src, WaitZeroAcks);
    }

    method ReceiveSyncAcks(src: nat, sent: bool)
      requires Valid() && src < MAX_VC
      modifies this`vcConnecting, list
      ensures Valid() && list[..] == old(list[..])[src := OnSyncAcks(old(list[src]), sent)]
    {
      if sent {
        ZeroAcks(src);
        ChangeStateOf(src, Connected);
      }
    }

    method ReceiveZeroAcks(src: nat)
      requires Valid() && src < MAX_VC
      modifies this`vcConnecting, list
      ensures Valid() && list[..] == old(list[..])[src := OnZeroAcks(old(list[src]))]
    {
      ZeroAcks(src);
      ChangeStateOf(src, Connected);
    }

    /** `vcLinkAlive`. */
    method Alive(vc: nat)
      requires Valid() && vc < MAX_VC
      modifies this`vcConnecting, list
      ensures Valid() && list[..] == old(list[..])[vc := OnHeartbeat(old(list[vc]))]
    {
      if list[vc].vcState.LinkDown? {
        ChangeStateOf(vc, LinkAlive);
      }
    }

    /** The ATC command; a radio is connected to itself without a handshake. */
    method ConnectCommand(cmdVc: nat)
      requires Valid() && cmdVc < MAX_VC
      modifies this`vcConnecting, list
      ensures Valid()
      ensures list[..] == old(list[..])[cmdVc :=
        if cmdVc == myVc && old(list[cmdVc]).vcState.LinkAlive? then ChangeState(old(list[cmdVc]), Connected)
        else OnConnectCommand(old(list[cmdVc]))]
    {
      if list[cmdVc].vcState.LinkAlive? {
        ChangeStateOf(cmdVc, if cmdVc == myVc then Connected else SendUnknownAcks);
      }
    }

    /** `vcBreakLink`: addresses -32 to -1 are reserved, of the others the low five bits count. */
    method BreakCircuit(address: int)
      requires -128 <= address < 128
      requires Valid() || (address >= 0 && address % 32 != myVc && ValidBut(address % 32) && !list[address % 32].vcState.LinkDown?)
      modifies this`vcConnecting, this`ackTimer, list
      ensures Valid()
      ensures var vc := address % 32;
              if -32 <= address <= -1 then list[..] == old(list[..]) && ackTimer == old(ackTimer)
              else
                && list[..] == (if vc == myVc then old(list[..])
                                else old(list[..])[vc := OnLinkBreak(old(list[vc]))])
                && ackTimer == (if txDestVc == vc then 0 else old(ackTimer))
    {
      if -32 <= address <= -1 {
        return;
      }
      var vc := address % 32;
      if ackTimer != 0 && txDestVc == vc {
        ackTimer := 0;
      }
      if vc != myVc {
        ChangeStateOf(vc, LinkDown);
      }
    }

    /** One round of the timeout sweep. */
    method SweepCircuit(index: nat, serverLinkBroken: bool, now: nat) returns (broken: bool)
      requires Valid() && index < MAX_VC && index != myVc && now < MILLIS
      modifies this`vcConnecting, this`ackTimer, this`radioState, list
      ensures Valid()
      ensures broken == Breaks(old(list[index]), index, myVc, serverLinkBroken, now, settings.heartbeatTimeout)
      ensures list[index] == if broken then OnLinkBreak(old(list[index])) else old(list[index])
      ensures forall i :: 0 <= i < MAX_VC && i != index ==> list[i] == old(list[i])
      ensures ackTimer == if broken && txDestVc == index then 0 else old(ackTimer)
      ensures radioState == if broken && index == VC_SERVER then WaitServer else old(radioState)
    {
      broken := !list[index].vcState.LinkDown? && (serverLinkBroken || Expired(list[index], now, settings.heartbeatTimeout));
      if broken {
        if index == VC_SERVER {
          radioState := WaitServer;
        }
        assert index % 32 == index;
        BreakCircuit(index);
      }
    }

    /** The sweep over all circuits at the end of RADIO_VC_WAIT_RECEIVE. */
    method CheckLinkTimeouts(now: nat)
      requires Valid() && now < MILLIS
      modifies this`vcConnecting, this`ackTimer, this`radioState, list
      ensures Valid() && View() == Aged(settings, old(View()), now)
      ensures ServerLost(old(list[VC_SERVER]), myVc, now, settings.heartbeatTimeout) ==>
        forall i :: 0 <= i < MAX_VC && i != myVc ==> list[i].vcState.LinkDown? && !IsSet(vcConnecting, i)
    {
      ghost var before := list[..];
      ghost var lost := ServerLost(before[VC_SERVER], myVc, now, settings.heartbeatTimeout);
      var serverLinkBroken := false;
      var index := 0;
      while index < MAX_VC
        invariant 0 <= index <= MAX_VC && Valid()
        invariant serverLinkBroken == (index > 0 && lost)
        invariant radioState == if serverLinkBroken then WaitServer else old(radioState)
        invariant ackTimer == if 0 <= txDestVc < index && Breaks(before[txDestVc], txDestVc, myVc, lost, now, settings.heartbeatTimeout)
                              then 0 else old(ackTimer)
        invariant forall i :: 0 <= i < index ==> list[i] == Swept(before[i], i, myVc, lost, now, settings.heartbeatTimeout)
        invariant forall i :: index <= i < MAX_VC ==> list[i] == before[i]
      {
        if index != myVc {
          var broken := SweepCircuit(index, serverLinkBroken, now);
          if broken && index == VC_SERVER {
            serverLinkBroken := true;
          }
        }
        index := index + 1;
      }
      SweptIsAged(settings, old(View()), now, list[..]);
    }

    /**
     Priority 2: an ACK is outstanding.  `due` is the timeout comparison, `clock`
     the nonzero value the restarted timer gets.  Only messages to other nodes
     wait for an ACK.
     */
    method AwaitAck(due: bool, free: bool, clock: nat)
      requires Valid() && ackTimer != 0 && 0 <= rexmtTxDestVc < MAX_VC && rexmtTxDestVc != myVc && clock != 0
      modifies this`vcConnecting, this`ackTimer, this`rexmtFrameSentCount, this`txDestVc, this`radioState, list
      ensures Valid() && View() == AckAwaited(settings, old(View()), due, free, clock)
      ensures RetryOf(View()) == RetryPass(RetryOf(old(View())), due, settings.maxResends)
    {
      AwaitIsRetry(settings, View(), due, free, clock);
      txDestVc := rexmtTxDestVc;
      if list[txDestVc].vcState.LinkDown? {
        ackTimer := 0;
      } else if due {
        if settings.maxResends == 0 || rexmtFrameSentCount < settings.maxResends {
          rexmtFrameSentCount := (rexmtFrameSentCount + 1) % 0x100;
          if free {
            radioState := WaitTxDone;
          }
          ackTimer := clock;
        } else {
          GiveUp();
        }
      }
    }

    /** Retries are used up: ask for a new connection and break the link. */
    method GiveUp()
      requires Valid() && 0 <= txDestVc < MAX_VC && txDestVc != myVc && !list[txDestVc].vcState.LinkDown?
      modifies this`vcConnecting, this`ackTimer, list
      ensures Valid() && ackTimer == 0
      ensures list[..] == old(list[..])[txDestVc := OnRetriesExhausted(old(list[txDestVc]))]
    {
      list[txDestVc] := list[txDestVc].(wasConnected := true);
      BreakCircuit(txDestVc);
    }

    /** `transmitDatagram`: the destination is noted before the frame can be refused. */
    method TransmitDatagram(dest: int, free: bool) returns (started: bool)
      requires Valid()
      modifies this`txDestVc, this`radioState
      ensures Valid() && started == Permitted(old(View()), dest, free) && View() == Transmitted(old(View()), dest, free)
    {
      txDestVc := dest;
      started := free && (dest == VC_BROADCAST || dest == VC_UNASSIGNED || !list[dest % MAX_VC].vcState.LinkDown?);
      if started {
        radioState := WaitTxDone;
      }
    }

    /** A command response, data or a remote command: started or not, it is saved and its ACK timed. */
    method SendAndSave(dest: int, free: bool, clock: nat)
      requires Valid()
      modifies this`txDestVc, this`radioState, this`ackTimer, this`rexmtTxDestVc, this`rexmtFrameSentCount
      ensures Valid() && View() == Saved(old(View()), dest, free, clock)
    {
      var started := TransmitDatagram(dest, free);
      ackTimer := clock;
      rexmtFrameSentCount := if started then 1 else 0;
      rexmtTxDestVc := txDestVc;
    }

    /** Priority 4: the first circuit being connected takes its next step. */
    method DriveHandshake(interrupted: bool, due: bool, free: bool)
      requires Valid() && vcConnecting != 0
      modifies this`vcConnecting, this`txDestVc, this`radioState, list
      ensures Valid()
      ensures var index := FirstConnecting(old(list[..]), 0);
              View() == if index == MAX_VC || interrupted then old(View()) else Shaken(old(View()), index, due, free)
    {
      ghost var first := FirstConnecting(list[..], 0);
      var index := 0;
      while index < MAX_VC
        invariant 0 <= index <= MAX_VC && first == FirstConnecting(list[..], index)
      {
        if interrupted {
          return;
        }
        if IsSet(vcConnecting, index) {
          if list[index].vcState.SendUnknownAcks? || list[index].vcState.LinkAlive? {
            var started := TransmitDatagram(index, free);
            if started {
              ChangeStateOf(index, WaitSyncAcks);
            }
          } else if due {
            var started := TransmitDatagram(index, free);
          }
          return;
        }
        index := index + 1;
      }
    }

    /** The circuit of the sender has seen traffic. */
    method NoteTraffic(src: int, now: nat)
      requires Valid() && now < MILLIS
      modifies list
      ensures Valid() && View() == Refreshed(old(View()), src, now)
    {
      if !(-MAX_VC <= src <= -1) {
        list[src % MAX_VC] := list[src % MAX_VC].(lastTrafficMillis := now);
      }
    }

    /** Lowest priority: `vcSerialMessageReceived` and the transmission of what it readied. */
    method SendHostMessage(message: HostMessage, free: bool, clock: nat)
      requires Valid() && (message.ToCircuit? || message.TooLong? ==> message.dest < MAX_VC)
      requires message.TooLong? ==> ackTimer == 0
      modifies this, list
      ensures Valid() && View() == HostServed(old(View()), message, free, clock)
    {
      match message
      case NoMessage =>
      case ToAll =>
        var started := TransmitDatagram(VC_BROADCAST, free);
      case ToCircuit(dest) =>
        if dest != myVc && list[dest].vcState.Connected? {
          SendAndSave(dest, free, clock);
        }
      case TooLong(dest) =>
        BreakCircuit(dest);
    }

    /** The transmit priorities: at most one transmission. */
    method TransmitPending(a: Activity, now: nat)
      requires Valid() && now < MILLIS && a.Idle? && Possible(View(), a)
      requires ackTimer != 0 ==> 0 <= rexmtTxDestVc < MAX_VC && rexmtTxDestVc != myVc
      modifies this, list
      ensures Valid() && View() == Served(settings, old(View()), a, now)
    {
      ConnectingBits();
      if a.heartbeatDue {
        var started := TransmitDatagram(VC_BROADCAST, a.free);
        if started && 0 <= myVc < MAX_VC {
          NoteTraffic(myVc, now);
        }
      } else if ackTimer != 0 {
        AwaitAck(a.ackDue, a.free, a.clock);
      } else if a.response {
        SendAndSave(rmtCmdVc.value, a.free, a.clock);
      } else if vcConnecting != 0 {
        DriveHandshake(a.interrupted, a.handshakeDue, a.free);
      } else {
        SendHostMessage(a.message, a.free, a.clock);
      }
    }

    /** The map is zero exactly if no circuit is being connected. */
    lemma ConnectingBits()
      requires Valid()
      ensures vcConnecting == 0 <==> FirstConnecting(list[..], 0) == MAX_VC
    {
      if vcConnecting == 0 {
        forall i | 0 <= i < MAX_VC ensures !Connecting(list[i]) { NoneSet(i); }
      } else {
        var i := SomeSet(vcConnecting, MAX_VC);
        assert Connecting(list[i]);
      }
    }

    /** The numbers that `rcvDatagram` updates in the sender's circuit. */
    method UpdateNumbers(f: Frame)
      requires Valid()
      modifies list
      ensures Valid() && View() == Validated(old(View()), f)
    {
      if 0 <= f.src < MAX_VC {
        list[f.src] := Numbered(list[f.src], f);
      }
    }

    /** `vcReceiveHeartbeat`, given the answer of `vcIdToAddressByte`. */
    method ReceiveHeartbeat(src: int, alive: int, mine: bool, free: bool)
      requires Valid() && alive < MAX_VC
      modifies this, list
      ensures Valid() && View() == HeartbeatHeard(settings, old(View()), src, alive, mine, free)
    {
      if myVc == VC_UNASSIGNED && mine {
        myVc := src;
      }
      if alive < 0 {
        return;
      }
      Alive(alive);
      if settings.server && src == VC_UNASSIGNED {
        var started := TransmitDatagram(VC_BROADCAST, free);
      }
    }

    /** The switch over the received frame. */
    method ProcessFrame(f: Frame, free: bool)
      requires Valid() && InTable(f)
      modifies this, list
      ensures Valid() && View() == Handled(settings, old(View()), f, free)
    {
      match f
      case BadFrame(_) =>
      case BroadcastData(_) =>
      case Heartbeat(src, alive, mine) =>
        ReceiveHeartbeat(src, alive, mine, free);
      case DataFrame(src, _, _) =>
        var started := TransmitDatagram(src, free);
      case RemoteCommand(src, _) =>
        rmtCmdVc := Some(src);
        var started := TransmitDatagram(src, free);
      case DataAck(_, _) =>
        ackTimer := 0;
      case UnknownAcks(src) =>
        var started := TransmitDatagram(src, free);
        ReceiveUnknownAcks(src);
      case SyncAcks(src) =>
        var started := TransmitDatagram(src, free);
        ReceiveSyncAcks(src, started);
      case ZeroAcks(src) =>
        ReceiveZeroAcks(src);
    }

    method ReceiveFrame(f: Frame, free: bool, now: nat)
      requires Valid() && now < MILLIS && Arrives(View(), f)
      modifies this, list
      ensures Valid() && View() == FrameReceived(settings, old(View()), f, free, now)
    {
      UpdateNumbers(f);
      NoteTraffic(f.src, now);
      ProcessFrame(f, free);
    }

    /** A pass of RADIO_VC_WAIT_RECEIVE. */
    method WaitReceivePass(a: Activity, now: nat)
      requires Valid() && now < MILLIS && Possible(View(), a)
      requires ackTimer != 0 ==> 0 <= rexmtTxDestVc < MAX_VC && rexmtTxDestVc != myVc
      modifies this, list
      ensures Valid() && View() == Pass(settings, old(View()), a, now)
    {
      match a {
        case Received(frame, free) =>
          ReceiveFrame(frame, free, now);
        case Receiving =>
        case Idle(_, _, _, _, _, _, _, _) =>
          TransmitPending(a, now);
      }
      CheckLinkTimeouts(now);
    }

    /** A pass of RADIO_VC_WAIT_TX_DONE that finds the transmission complete. */
    method WaitTxDonePass()
      requires Valid()
      modifies this`radioState
      ensures Valid() && View() == TransmissionDone(old(View()))
    {
      radioState := if list[VC_SERVER].vcState.LinkDown? then WaitServer else WaitReceive;
    }

    /** A pass of RADIO_VC_WAIT_SERVER that finds a frame. */
    method WaitServerPass(f: Frame, free: bool, now: nat)
      requires Valid() && now < MILLIS && Arrives(View(), f)
      modifies this, list
      ensures Valid() && View() == ServerAwaited(settings, old(View()), f, free, now)
    {
      if myVc == VC_SERVER {
        radioState := WaitReceive;
        return;
      }
      UpdateNumbers(f);
      match f
      case Heartbeat(src, alive, mine) =>
        if src == VC_SERVER {
          NoteTraffic(VC_SERVER, now);
          ReceiveHeartbeat(src, alive, mine, free);
          radioState := WaitReceive;
        }
      case _ =>
    }
  }
}
