/**
 Two virtual-circuit nodes that open, lose and reopen the circuit between them:
 UNKNOWN_ACKS, SYNC_ACKS, ZERO_ACKS over a lossy half-duplex medium.
 */
module VcHandshake {
  import opened Basics
  import opened VcCircuits
  import Runs

  /** A frame between the two nodes; `ZeroAcks` carries the identity of its transmission, `Traffic` is any other frame. */
  datatype VcFrame = UnknownAcks | SyncAcks | ZeroAcks(exchange: nat) | Traffic

  /**
   One node: its circuit to the peer, a received frame not yet read, a frame on
   air, and the ZERO_ACKS transmission in which it last zeroed its numbers.
   `transmitting` is RADIO_VC_WAIT_TX_DONE.
   */
  datatype VcNode = VcNode(
    circuit: Circuit,
    inbox: Option<VcFrame>,
    air: Option<VcFrame>,
    transmitting: bool,
    zeroedIn: Option<nat>)

  datatype VcSystem = VcSystem(left: VcNode, right: VcNode, exchanges: nat)
  {
    function At(side: Side): VcNode {
      if side.Left? then left else right
    }

    function With(side: Side, n: VcNode): VcSystem {
      if side.Left? then this.(left := n) else this.(right := n)
    }
  }

  datatype VcMove =
    | Read(sent: bool)          // process the received frame; `sent` says whether a reply started
    | Ignore                    // read it in a state that discards it
    | Drive(sent: bool)         // priority 4: the handshake timer of this circuit
    | SendTraffic               // any other transmission, to the peer or, whatever the circuit's state, to all
    | AirDone(delivered: bool)  // the transmission ends, heard by the peer or not
    | TransmitDone              // RADIO_VC_WAIT_TX_DONE acknowledges it
    | Noise                     // some other radio's frame, or an unusable one, is received
    | HeartbeatHeard
    | ConnectCommand
    | LinkTimeout
    | RetriesExhausted
    | Reboot

  /** `retransmitDatagram` refuses when a frame is unread or, unless it goes to all, the circuit is down. */
  predicate MayTransmit(n: VcNode) {
    !n.transmitting && n.inbox.None? && !n.circuit.vcState.LinkDown?
  }

  predicate Possible(sys: VcSystem, me: Side, move: VcMove) {
    var n, peer := sys.At(me), sys.At(Other(me));
    match move
    case Read(sent) => !n.transmitting && n.inbox.Some? && (sent ==> !n.circuit.vcState.LinkDown?)
    case Ignore => !n.transmitting && n.inbox.Some?
    case Drive(sent) => !n.transmitting && n.inbox.None? && Connecting(n.circuit) && (sent ==> MayTransmit(n))
    case SendTraffic => !n.transmitting && n.inbox.None?
    case AirDone(delivered) => n.air.Some? && (delivered ==> !peer.transmitting)
    case TransmitDone => n.transmitting && n.air.None?
    case Noise => !n.transmitting
    case _ => true
  }

  function Transmit(n: VcNode, frame: VcFrame, sent: bool): VcNode {
    if sent then n.(air := Some(frame), transmitting := true) else n
  }

  /** The DATAGRAM_VC_* cases of RADIO_VC_WAIT_RECEIVE; `exchange` names a ZERO_ACKS sent in reply. */
  function AfterRead(n: VcNode, sent: bool, exchange: nat): VcNode
    requires n.inbox.Some?
  {
    var n' := n.(inbox := None);
    match n.inbox.value
    case UnknownAcks => Transmit(n'.(circuit := OnUnknownAcks(n.circuit)), SyncAcks, sent)
    case SyncAcks =>
      if sent then Transmit(n'.(circuit := OnSyncAcks(n.circuit, sent), zeroedIn := Some(exchange)), ZeroAcks(exchange), sent)
      else n'
    case ZeroAcks(k) => n'.(circuit := OnZeroAcks(n.circuit), zeroedIn := Some(k))
    case Traffic => Transmit(n', Traffic, sent)
  }

  /** The handshake timer: first or repeated UNKNOWN_ACKS, or a repeated SYNC_ACKS. */
  function AfterDrive(n: VcNode, sent: bool): VcNode {
    if !sent then n
    else if n.circuit.vcState.WaitZeroAcks? then Transmit(n, SyncAcks, sent)
    else Transmit(n.(circuit := ChangeState(n.circuit, WaitSyncAcks)), UnknownAcks, sent)
  }

  const REBOOTED_CIRCUIT := Circuit(LinkDown, false, 0, 0, 0, 0)

  function Do(sys: VcSystem, me: Side, move: VcMove): VcSystem
    requires Possible(sys, me, move)
  {
    var n, peer := sys.At(me), sys.At(Other(me));
    match move
    case Read(sent) => sys.With(me, AfterRead(n, sent, sys.exchanges)).(exchanges := sys.exchanges + 1)
    case Ignore => sys.With(me, n.(inbox := None))
    case Drive(sent) => sys.With(me, AfterDrive(n, sent))
    case SendTraffic => sys.With(me, Transmit(n, Traffic, true))
    case AirDone(delivered) =>
      var quiet := sys.With(me, n.(air := None));
      if delivered then quiet.With(Other(me), peer.(inbox := n.air)) else quiet
    case TransmitDone => sys.With(me, n.(transmitting := false))
    case Noise => sys.With(me, n.(inbox := Some(Traffic)))
    case HeartbeatHeard => sys.With(me, n.(circuit := OnHeartbeat(n.circuit)))
    case ConnectCommand => sys.With(me, n.(circuit := OnConnectCommand(n.circuit)))
    case LinkTimeout => sys.With(me, n.(circuit := OnLinkBreak(n.circuit)))
    case RetriesExhausted => sys.With(me, n.(circuit := OnRetriesExhausted(n.circuit)))
    case Reboot => sys.With(me, VcNode(REBOOTED_CIRCUIT, None, None, false, None))
  }

  const INITIAL_NODE := VcNode(REBOOTED_CIRCUIT, None, None, false, None)
  const INITIAL := VcSystem(INITIAL_NODE, INITIAL_NODE, 0)

  // ---------------------------------------------------------------------
  // Invariant
  // ---------------------------------------------------------------------

  predicate Useful(f: Option<VcFrame>) {
    f.Some? && !f.value.Traffic?
  }

  predicate IsZero(f: Option<VcFrame>) {
    f.Some? && f.value.ZeroAcks?
  }

  predicate IsConnected(n: VcNode) {
    n.circuit.vcState.Connected?
  }

  /** `n` sent the frame `f`, still on air or unread by `peer`. */
  predicate FrameInv(n: VcNode, peer: VcNode, f: Option<VcFrame>) {
    && (f == Some(SyncAcks) ==> !IsConnected(n))
    && (IsZero(f) ==> !IsConnected(peer) && (IsConnected(n) ==> n.zeroedIn == Some(f.value.exchange)))
  }

  predicate SideInv(n: VcNode, peer: VcNode) {
    && (n.transmitting ==> n.inbox.None?)
    && (n.air.Some? ==> n.transmitting)
    && !(Useful(n.inbox) && Useful(peer.inbox))
    && (IsZero(n.air) ==> !Useful(peer.inbox))
    && FrameInv(n, peer, n.air)
    && FrameInv(n, peer, peer.inbox)
    && (IsConnected(n) ==> n.zeroedIn.Some?)
  }

  predicate Inv(sys: VcSystem) {
    && SideInv(sys.left, sys.right)
    && SideInv(sys.right, sys.left)
    && (IsConnected(sys.left) && IsConnected(sys.right) ==> sys.left.zeroedIn == sys.right.zeroedIn)
  }

  lemma ReadInv(sys: VcSystem, me: Side, sent: bool)
    requires Inv(sys) && Possible(sys, me, Read(sent))
    ensures Inv(Do(sys, me, Read(sent)))
  {
    match me case Left => case Right =>
  }

  lemma MoveInv(sys: VcSystem, me: Side, move: VcMove)
    requires Inv(sys) && Possible(sys, me, move)
    ensures Inv(Do(sys, me, move))
  {
    if move.Read? { ReadInv(sys, me, move.sent); }
    else { match me case Left => case Right => }
  }

  datatype Event = Event(me: Side, move: VcMove)

  function Next(sys: VcSystem, e: Event): Option<VcSystem> {
    if Possible(sys, e.me, e.move) then Some(Do(sys, e.me, e.move)) else None
  }

  lemma RunInv(sys: VcSystem, events: seq<Event>, sys': VcSystem)
    requires Inv(sys) && Runs.Leads(Next, sys, events, sys')
    ensures Inv(sys')
  {
    forall s, e | Inv(s) && Next(s, e).Some? ensures Inv(Next(s, e).value) { MoveInv(s, e.me, e.move); }
    Runs.Preserved(Next, s => Inv(s), sys, events, sys');
  }

  /**
   In every reachable state, if each node has its circuit to the other
   CONNECTED, both last zeroed their numbers with the same ZERO_ACKS frame.
   */
  lemma CircuitAgreement(events: seq<Event>, sys: VcSystem)
    requires Runs.Leads(Next, INITIAL, events, sys)
    requires IsConnected(sys.left) && IsConnected(sys.right)
    ensures sys.left.zeroedIn.Some? && sys.left.zeroedIn == sys.right.zeroedIn
  {
    RunInv(INITIAL, events, sys);
  }

  /** The reason: a node whose SYNC_ACKS is on air or unread is not CONNECTED. */
  lemma PendingSyncMeansUnconnected(events: seq<Event>, sys: VcSystem, me: Side)
    requires Runs.Leads(Next, INITIAL, events, sys)
    requires sys.At(me).air == Some(SyncAcks) || sys.At(Other(me)).inbox == Some(SyncAcks)
    ensures !IsConnected(sys.At(me))
  {
    RunInv(INITIAL, events, sys);
  }

  // ---------------------------------------------------------------------
  // The handshake can succeed
  // ---------------------------------------------------------------------

  ghost predicate Reachable(sys: VcSystem) {
    Runs.Reaches(Next, INITIAL, sys)
  }

  lemma On(sys: VcSystem, me: Side, move: VcMove) returns (sys': VcSystem)
    requires Reachable(sys) && Possible(sys, me, move)
    ensures Reachable(sys') && sys' == Do(sys, me, move)
  {
    Runs.ReachesOn(Next, INITIAL, sys, Event(me, move));
    sys' := Do(sys, me, move);
  }

  /** A transmission is heard and acknowledged. */
  lemma Heard(sys: VcSystem, me: Side) returns (sys': VcSystem)
    requires Reachable(sys) && sys.At(me).transmitting && sys.At(me).air.Some? && !sys.At(Other(me)).transmitting
    ensures Reachable(sys') && sys'.At(me) == sys.At(me).(air := None, transmitting := false)
    ensures sys'.At(Other(me)) == sys.At(Other(me)).(inbox := sys.At(me).air) && sys'.exchanges == sys.exchanges
  {
    var s := On(sys, me, AirDone(true));
    sys' := On(s, me, TransmitDone);
  }

  /** Both radios hear a HEARTBEAT and the left one is told to connect. */
  lemma BothAlive() returns (sys: VcSystem)
    ensures Reachable(sys)
    ensures sys.left == INITIAL_NODE.(circuit := REBOOTED_CIRCUIT.(vcState := SendUnknownAcks))
    ensures sys.right == INITIAL_NODE.(circuit := REBOOTED_CIRCUIT.(vcState := LinkAlive))
  {
    Runs.ReachesHere(Next, INITIAL);
    var s := On(INITIAL, Left, HeartbeatHeard);
    s := On(s, Right, HeartbeatHeard);
    sys := On(s, Left, ConnectCommand);
  }

  /** A run in which UNKNOWN_ACKS, SYNC_ACKS and ZERO_ACKS are heard connects both circuits. */
  lemma CircuitConnects() returns (sys: VcSystem)
    ensures Reachable(sys) && IsConnected(sys.left) && IsConnected(sys.right)
  {
    var s := BothAlive();
    s := On(s, Left, Drive(true));
    s := Heard(s, Left);
    s := On(s, Right, Read(true));
    s := Heard(s, Right);
    s := On(s, Left, Read(true));
    s := Heard(s, Left);
    sys := On(s, Right, Read(false));
  }
}
