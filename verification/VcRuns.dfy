/**
 Runs of one virtual-circuit node: exactly when a pass stops the ACK timer of a
 message that its destination has not acknowledged and whose circuit stays up.
 */
module VcRuns {
  import opened Basics
  import opened VcCircuits
  import opened VcRadio
  import Runs

  datatype State = State(node: Node, millis: nat)

  datatype Move =
    | ReceivePass(activity: Activity)           // a pass of RADIO_VC_WAIT_RECEIVE
    | TransmissionEnds                          // RADIO_VC_WAIT_TX_DONE finds it complete
    | ServerPass(frame: Frame, free: bool)      // RADIO_VC_WAIT_SERVER finds a frame
    | ConnectCommand(cmdVc: nat)

  /** A move after `wait` milliseconds. */
  datatype Event = Event(wait: nat, move: Move)

  function Start(cfg: Settings, millis: nat): State {
    State(PowerUp(cfg.server), millis)
  }

  function Connect(n: Node, cmdVc: nat): Node
    requires cmdVc < |n.circuits|
  {
    var c := n.circuits[cmdVc];
    Changed(n, cmdVc, if cmdVc == n.myVc && c.vcState.LinkAlive? then ChangeState(c, Connected) else OnConnectCommand(c))
  }

  predicate Shaped(n: Node, now: nat) {
    Sized(n, now) && (n.ackTimer != 0 ==> 0 <= n.rexmtTxDestVc < MAX_VC)
  }

  predicate CanMove(n: Node, move: Move)
    requires |n.circuits| == MAX_VC
  {
    match move
    case ReceivePass(a) => n.state.WaitReceive? && Possible(n, a)
    case TransmissionEnds => n.state.WaitTxDone?
    case ServerPass(frame, _) => n.state.WaitServer? && Arrives(n, frame)
    case ConnectCommand(cmdVc) => cmdVc < MAX_VC
  }

  function Moved(cfg: Settings, n: Node, move: Move, now: nat): Node
    requires Shaped(n, now) && CanMove(n, move)
  {
    match move
    case ReceivePass(a) => Pass(cfg, n, a, now)
    case TransmissionEnds => TransmissionDone(n)
    case ServerPass(frame, free) => ServerAwaited(cfg, n, frame, free, now)
    case ConnectCommand(cmdVc) => Connect(n, cmdVc)
  }

  function Next(cfg: Settings, s: State, e: Event): Option<State> {
    var now := (s.millis + e.wait) % MILLIS;
    if Shaped(s.node, now) && CanMove(s.node, e.move) then Some(State(Moved(cfg, s.node, e.move, now), now)) else None
  }

  function NextOf(cfg: Settings): (State, Event) -> Option<State> {
    (s, e) => Next(cfg, s, e)
  }

  ghost predicate Reachable(cfg: Settings, s: State) {
    exists millis :: 0 <= millis < MILLIS && Runs.Reaches(NextOf(cfg), Start(cfg, millis), s)
  }

  // ---------------------------------------------------------------------
  // What every run keeps
  // ---------------------------------------------------------------------

  /** Number v belongs to another node. */
  predicate OtherNode(n: Node, v: int) {
    0 <= v < MAX_VC && v != n.myVc
  }

  /** Only messages to other nodes wait for an ACK, and without a number of its own a radio has none. */
  predicate Inv(n: Node, now: nat) {
    && Sized(n, now)
    && (n.myVc == VC_UNASSIGNED || 0 <= n.myVc < MAX_VC)
    && (n.ackTimer != 0 ==> OtherNode(n, n.rexmtTxDestVc))
    && (n.rmtCmdVc.Some? ==> OtherNode(n, n.rmtCmdVc.value))
    && (n.myVc == VC_UNASSIGNED ==>
          n.ackTimer == 0 && n.rmtCmdVc.None? && forall i :: 0 <= i < MAX_VC ==> !n.circuits[i].vcState.Connected?)
  }

  lemma ReceivedInv(cfg: Settings, n: Node, f: Frame, free: bool, now: nat)
    requires Inv(n, now) && Arrives(n, f)
    ensures Inv(FrameReceived(cfg, n, f, free, now), now)
  {
    var m := Refreshed(Validated(n, f), f.src, now);
    assert Inv(m, now);
    HandledInv(cfg, m, f, free, now);
  }

  lemma HandledInv(cfg: Settings, n: Node, f: Frame, free: bool, now: nat)
    requires Inv(n, now) && InTable(f)
    requires f.Heartbeat? ==> 0 <= f.src < MAX_VC || f.src == VC_UNASSIGNED
    requires f.BadFrame? || f.Heartbeat? || f.BroadcastData? || Addressed(n, f.src)
    ensures Inv(Handled(cfg, n, f, free), now)
  {
  }

  lemma HostServedInv(n: Node, message: HostMessage, free: bool, clock: nat, now: nat)
    requires Inv(n, now) && (message.ToCircuit? || message.TooLong? ==> message.dest < MAX_VC)
    ensures Inv(HostServed(n, message, free, clock), now)
  {
  }

  lemma ShakenInv(n: Node, index: nat, due: bool, free: bool, now: nat)
    requires Inv(n, now) && index < MAX_VC
    ensures Inv(Shaken(n, index, due, free), now)
  {
  }

  lemma HeartbeatSentInv(n: Node, free: bool, now: nat)
    requires Inv(n, now)
    ensures Inv(HeartbeatSent(n, free, now), now)
  {
  }

  lemma AckAwaitedInv(cfg: Settings, n: Node, due: bool, free: bool, clock: nat, now: nat)
    requires Inv(n, now) && n.ackTimer != 0
    ensures Inv(AckAwaited(cfg, n, due, free, clock), now)
  {
  }

  lemma ServedInv(cfg: Settings, n: Node, a: Activity, now: nat)
    requires Inv(n, now) && a.Idle? && Possible(n, a)
    ensures Inv(Served(cfg, n, a, now), now)
  {
    if a.heartbeatDue {
      HeartbeatSentInv(n, a.free, now);
    } else if n.ackTimer != 0 {
      AckAwaitedInv(cfg, n, a.ackDue, a.free, a.clock, now);
    } else if !a.response {
      HostServedInv(n, a.message, a.free, a.clock, now);
      var index := FirstConnecting(n.circuits, 0);
      if index < MAX_VC { ShakenInv(n, index, a.handshakeDue, a.free, now); }
    }
  }

  lemma AgedInv(cfg: Settings, n: Node, now: nat)
    requires Inv(n, now)
    ensures Inv(Aged(cfg, n, now), now)
  {
  }

  lemma ServerAwaitedInv(cfg: Settings, n: Node, f: Frame, free: bool, now: nat)
    requires Inv(n, now) && Arrives(n, f)
    ensures Inv(ServerAwaited(cfg, n, f, free, now), now)
  {
    ReceivedInv(cfg, n, f, free, now);
  }

  lemma ConnectInv(n: Node, cmdVc: nat, now: nat)
    requires Inv(n, now) && cmdVc < MAX_VC
    ensures Inv(Connect(n, cmdVc), now)
  {
  }

  lemma PassInv(cfg: Settings, n: Node, a: Activity, now: nat)
    requires Inv(n, now) && Possible(n, a)
    ensures Inv(Pass(cfg, n, a, now), now)
  {
    ActedInv(cfg, n, a, now);
    AgedInv(cfg, Acted(cfg, n, a, now), now);
  }

  /** Every move keeps the invariant. */
  lemma MoveInv(cfg: Settings, n: Node, move: Move, now: nat)
    requires Inv(n, now) && CanMove(n, move)
    ensures Inv(Moved(cfg, n, move, now), now)
  {
    match move
    case ReceivePass(a) => PassInv(cfg, n, a, now);
    case TransmissionEnds =>
    case ServerPass(frame, free) => ServerAwaitedInv(cfg, n, frame, free, now);
    case ConnectCommand(cmdVc) => ConnectInv(n, cmdVc, now);
  }

  lemma ActedInv(cfg: Settings, n: Node, a: Activity, now: nat)
    requires Inv(n, now) && Possible(n, a)
    ensures Inv(Acted(cfg, n, a, now), now)
  {
    match a
    case Received(frame, free) => ReceivedInv(cfg, n, frame, free, now);
    case Receiving =>
    case Idle(_, _, _, _, _, _, _, _) => ServedInv(cfg, n, a, now);
  }

  /** The invariant holds in every run of every node. */
  lemma ReachableInv(cfg: Settings, s: State)
    requires Reachable(cfg, s)
    ensures Inv(s.node, s.millis)
  {
    var millis :| 0 <= millis < MILLIS && Runs.Reaches(NextOf(cfg), Start(cfg, millis), s);
    var events :| Runs.Leads(NextOf(cfg), Start(cfg, millis), events, s);
    var inv := (t: State) => Inv(t.node, t.millis);
    forall t, e | inv(t) && NextOf(cfg)(t, e).Some? ensures inv(NextOf(cfg)(t, e).value) {
      MoveInv(cfg, t.node, e.move, (t.millis + e.wait) % MILLIS);
    }
    Runs.Preserved(NextOf(cfg), inv, Start(cfg, millis), events, s);
  }

  // ---------------------------------------------------------------------
  // Deserted messages
  // ---------------------------------------------------------------------

  /** From `n` to `n'` the retransmissions of a message end although its circuit is up. */
  predicate Deserts(n: Node, n': Node)
    requires |n'.circuits| == MAX_VC && (n.ackTimer != 0 ==> 0 <= n.rexmtTxDestVc < MAX_VC)
  {
    n.ackTimer != 0 && n'.ackTimer == 0 && !n'.circuits[n.rexmtTxDestVc].vcState.LinkDown?
  }

  /** Breaking one circuit deserts a message exactly if the latest transmission, but not the message, went to that circuit. */
  lemma BreakDesertsExactly(n: Node, vc: nat)
    requires |n.circuits| == MAX_VC && vc < MAX_VC && vc != n.myVc && OtherNode(n, n.rexmtTxDestVc)
    ensures Deserts(n, Broken(n, vc)) <==>
            && n.ackTimer != 0 && n.txDestVc == vc
            && n.rexmtTxDestVc != vc && !n.circuits[n.rexmtTxDestVc].vcState.LinkDown?
  {
  }

  /** The sweep at `now` breaks circuit v. */
  predicate SweepBreaks(cfg: Settings, n: Node, v: int, now: nat)
    requires Sized(n, now)
  {
    && 0 <= v < MAX_VC
    && Breaks(n.circuits[v], v, n.myVc, ServerLost(n.circuits[VC_SERVER], n.myVc, now, cfg.heartbeatTimeout), now, cfg.heartbeatTimeout)
  }

  /** For every state: the sweep deserts a message exactly if it breaks the circuit of the latest transmission and not that of the message. */
  lemma SweepDesertsExactly(cfg: Settings, n: Node, now: nat)
    requires Sized(n, now) && 0 <= n.rexmtTxDestVc < MAX_VC
    ensures Deserts(n, Aged(cfg, n, now)) <==>
            && n.ackTimer != 0 && SweepBreaks(cfg, n, n.txDestVc, now)
            && !n.circuits[n.rexmtTxDestVc].vcState.LinkDown? && !SweepBreaks(cfg, n, n.rexmtTxDestVc, now)
  {
  }

  /** A pass that neither reaches the transmit priorities nor answers a frame nor takes in a DATA_ACK. */
  predicate Quiet(cfg: Settings, a: Activity) {
    match a
    case Receiving => true
    case Received(BadFrame(_), _) => true
    case Received(BroadcastData(_), _) => true
    case Received(ZeroAcks(_), _) => true
    case Received(Heartbeat(src, alive, _), _) => alive < 0 || !cfg.server || src != VC_UNASSIGNED
    case _ => false
  }

  /** Traffic of circuit v is too long ago. */
  predicate Silent(cfg: Settings, n: Node, v: int, now: nat)
    requires Sized(n, now) && 0 <= v < MAX_VC
  {
    Expired(n.circuits[v], now, cfg.heartbeatTimeout)
  }

  /** With the frame, if any, taken in: the circuit of the message is up, and neither it nor the server is silent. */
  predicate MessageInTime(cfg: Settings, n: Node, a: Activity, now: nat)
    requires Shaped(n, now) && Possible(n, a) && n.ackTimer != 0
  {
    ActedSized(cfg, n, a, now);
    var m := Acted(cfg, n, a, now);
    && !m.circuits[n.rexmtTxDestVc].vcState.LinkDown? && !Silent(cfg, m, n.rexmtTxDestVc, now)
    && !ServerLost(m.circuits[VC_SERVER], n.myVc, now, cfg.heartbeatTimeout)
  }

  /** With the frame, if any, taken in: the circuit of the latest transmission is up but silent. */
  predicate LatestSilent(cfg: Settings, n: Node, a: Activity, now: nat)
    requires Shaped(n, now) && Possible(n, a) && n.ackTimer != 0
  {
    ActedSized(cfg, n, a, now);
    var m := Acted(cfg, n, a, now);
    OtherNode(n, n.txDestVc) && !m.circuits[n.txDestVc].vcState.LinkDown? && Silent(cfg, m, n.txDestVc, now)
  }

  lemma QuietActed(cfg: Settings, n: Node, a: Activity, now: nat)
    requires Inv(n, now) && Possible(n, a) && Quiet(cfg, a)
    ensures var m := Acted(cfg, n, a, now);
            m.txDestVc == n.txDestVc && m.rexmtTxDestVc == n.rexmtTxDestVc && m.ackTimer == n.ackTimer
  {
  }

  /** The transmit priorities never desert a message: they turn to its destination first, or to all. */
  lemma IdleKeeps(cfg: Settings, n: Node, a: Activity, now: nat)
    requires Inv(n, now) && a.Idle? && Possible(n, a) && n.ackTimer != 0
    ensures !Deserts(n, Pass(cfg, n, a, now))
  {
    var m := Served(cfg, n, a, now);
    assert m.rexmtTxDestVc == n.rexmtTxDestVc;
    if m.ackTimer != 0 {
      assert m.txDestVc == VC_BROADCAST || m.txDestVc == m.rexmtTxDestVc;
      ActedSized(cfg, n, a, now);
      SweepDesertsExactly(cfg, m, now);
    }
  }

  /** The destination of an answer has just been heard, so the sweep breaks it only together with all others. */
  lemma AnswerKeeps(cfg: Settings, n: Node, f: Frame, free: bool, now: nat)
    requires Inv(n, now) && Arrives(n, f) && !Quiet(cfg, Received(f, free)) && !f.DataAck? && n.ackTimer != 0
    ensures !Deserts(n, Pass(cfg, n, Received(f, free), now))
  {
    var m := FrameReceived(cfg, n, f, free, now);
    ReceivedInv(cfg, n, f, free, now);
    SweepDesertsExactly(cfg, m, now);
    assert m.rexmtTxDestVc == n.rexmtTxDestVc && m.ackTimer == n.ackTimer;
    assert m.txDestVc == if f.Heartbeat? then VC_BROADCAST else f.src;
    if !f.Heartbeat? {
      assert m.circuits[f.src].lastTrafficMillis == now;
    }
  }

  /** A quiet pass whose sweep breaks the circuit of the latest transmission. */
  predicate OvertakenBySilence(cfg: Settings, n: Node, move: Move, now: nat)
    requires Shaped(n, now) && CanMove(n, move) && n.ackTimer != 0
  {
    && move.ReceivePass? && Quiet(cfg, move.activity)
    && LatestSilent(cfg, n, move.activity, now) && MessageInTime(cfg, n, move.activity, now)
  }

  predicate TakesAck(move: Move) {
    move.ReceivePass? && move.activity.Received? && move.activity.frame.DataAck?
  }

  /** The destination of the message acknowledges. */
  predicate TakesOwnAck(n: Node, move: Move) {
    TakesAck(move) && move.activity.frame.src == n.rexmtTxDestVc
  }

  /** Another node acknowledges something under the number that is next on its own circuit. */
  predicate TakesStrayAck(cfg: Settings, n: Node, move: Move, now: nat)
    requires Shaped(n, now) && CanMove(n, move) && n.ackTimer != 0
  {
    TakesAck(move) && !TakesOwnAck(n, move) && MessageInTime(cfg, n, move.activity, now)
  }

  /**
   Main result, for every move of every run: the ACK timer of a message stops
   while its circuit stays up, and its destination has not acknowledged, in exactly
   two cases.  A quiet pass finds that the latest transmission was an answer on
   another circuit which has fallen silent, while the circuit of the message and
   the server have not; or another node acknowledges.
   */
  lemma DesertsExactly(cfg: Settings, s: State, e: Event)
    requires Reachable(cfg, s) && Next(cfg, s, e).Some?
    ensures var now := (s.millis + e.wait) % MILLIS;
            Deserts(s.node, Next(cfg, s, e).value.node) && !TakesOwnAck(s.node, e.move) <==>
            s.node.ackTimer != 0 && (OvertakenBySilence(cfg, s.node, e.move, now) || TakesStrayAck(cfg, s.node, e.move, now))
  {
    var n, now := s.node, (s.millis + e.wait) % MILLIS;
    ReachableInv(cfg, s);
    NextIsMoved(cfg, s, e);
    if n.ackTimer != 0 {
      MoveDesertsExactly(cfg, n, e.move, now);
    }
  }

  lemma NextIsMoved(cfg: Settings, s: State, e: Event)
    requires Next(cfg, s, e).Some?
    ensures var now := (s.millis + e.wait) % MILLIS;
            && Shaped(s.node, now) && CanMove(s.node, e.move)
            && Next(cfg, s, e).value == State(Moved(cfg, s.node, e.move, now), now)
            && (Inv(s.node, s.millis) ==> Inv(s.node, now))
  {
  }

  lemma MoveDesertsExactly(cfg: Settings, n: Node, move: Move, now: nat)
    requires Inv(n, now) && CanMove(n, move) && n.ackTimer != 0
    ensures Deserts(n, Moved(cfg, n, move, now)) && !TakesOwnAck(n, move) <==>
            OvertakenBySilence(cfg, n, move, now) || TakesStrayAck(cfg, n, move, now)
  {
    match move
    case ReceivePass(a) =>
      if TakesAck(move) { AckDesertsExactly(cfg, n, a, now); } else { PassDesertsExactly(cfg, n, a, now); }
    case TransmissionEnds =>
    case ServerPass(frame, free) =>
    case ConnectCommand(cmdVc) =>
  }

  predicate ZeroAcksFrom(a: Activity, vc: int) {
    a.Received? && a.frame == ZeroAcks(vc)
  }

  /**
   The circuit's number has then not moved on, so that the next message to that
   node goes out under the number of the message given up (see VcDelivery).
   */
  lemma DesertedNumberStays(cfg: Settings, n: Node, move: Move, now: nat)
    requires Inv(n, now) && CanMove(n, move) && Deserts(n, Moved(cfg, n, move, now)) && !TakesOwnAck(n, move)
    ensures var c, c' := n.circuits[n.rexmtTxDestVc], Moved(cfg, n, move, now).circuits[n.rexmtTxDestVc];
            || c'.txAckNumber == c.txAckNumber
            || (move.ReceivePass? && ZeroAcksFrom(move.activity, n.rexmtTxDestVc) && c'.txAckNumber == 0)
  {
    MoveDesertsExactly(cfg, n, move, now);
    var m := Acted(cfg, n, move.activity, now);
    assert m.circuits[n.rexmtTxDestVc].txAckNumber == n.circuits[n.rexmtTxDestVc].txAckNumber
      || ZeroAcksFrom(move.activity, n.rexmtTxDestVc);
  }

  lemma PassDesertsExactly(cfg: Settings, n: Node, a: Activity, now: nat)
    requires Inv(n, now) && Possible(n, a) && n.ackTimer != 0 && !TakesAck(ReceivePass(a))
    ensures Deserts(n, Pass(cfg, n, a, now)) <==> Quiet(cfg, a) && LatestSilent(cfg, n, a, now) && MessageInTime(cfg, n, a, now)
  {
    ActedInv(cfg, n, a, now);
    if Quiet(cfg, a) {
      QuietActed(cfg, n, a, now);
      SweepDesertsExactly(cfg, Acted(cfg, n, a, now), now);
    } else if a.Idle? {
      IdleKeeps(cfg, n, a, now);
    } else {
      AnswerKeeps(cfg, n, a.frame, a.free, now);
    }
  }

  /** Any DATA_ACK stops the timer, and only the sweep can break the message's circuit in that pass. */
  lemma AckDesertsExactly(cfg: Settings, n: Node, a: Activity, now: nat)
    requires Inv(n, now) && Possible(n, a) && n.ackTimer != 0 && TakesAck(ReceivePass(a))
    ensures Deserts(n, Pass(cfg, n, a, now)) <==> MessageInTime(cfg, n, a, now)
  {
    ActedInv(cfg, n, a, now);
  }

  /** The latest transmission went to the message's destination, or to all. */
  predicate Aligned(n: Node) {
    n.ackTimer != 0 ==> n.txDestVc == n.rexmtTxDestVc || n.txDestVc == VC_BROADCAST
  }

  /**
   Being overtaken by silence takes an answer to another circuit, and no look at
   the transmit priorities since; otherwise only the ACK of another node ends the
   retransmissions of a message that its destination has not acknowledged.
   */
  lemma AlignedKeeps(cfg: Settings, n: Node, a: Activity, now: nat)
    requires Inv(n, now) && Possible(n, a)
    ensures a.Idle? || (Aligned(n) && Quiet(cfg, a)) ==> Aligned(Pass(cfg, n, a, now))
    ensures Aligned(n) && n.ackTimer != 0 && !TakesOwnAck(n, ReceivePass(a)) ==>
            (Deserts(n, Pass(cfg, n, a, now)) <==> TakesAck(ReceivePass(a)) && MessageInTime(cfg, n, a, now))
  {
    if a.Idle? {
      IdleAligns(cfg, n, a, now);
    } else if Quiet(cfg, a) {
      QuietActed(cfg, n, a, now);
    }
    if n.ackTimer != 0 {
      if TakesAck(ReceivePass(a)) { AckDesertsExactly(cfg, n, a, now); } else if Aligned(n) { AlignedPass(cfg, n, a, now); }
    }
  }

  lemma AlignedPass(cfg: Settings, n: Node, a: Activity, now: nat)
    requires Inv(n, now) && Possible(n, a) && n.ackTimer != 0 && !TakesAck(ReceivePass(a)) && Aligned(n)
    ensures !Deserts(n, Pass(cfg, n, a, now))
  {
    PassDesertsExactly(cfg, n, a, now);
  }

  lemma IdleAligns(cfg: Settings, n: Node, a: Activity, now: nat)
    requires Inv(n, now) && a.Idle? && Possible(n, a)
    ensures Aligned(Served(cfg, n, a, now))
  {
  }

  // ---------------------------------------------------------------------
  // A deserted message
  // ---------------------------------------------------------------------

  lemma Step(cfg: Settings, s: State, e: Event)
    requires Reachable(cfg, s) && Next(cfg, s, e).Some?
    ensures Reachable(cfg, Next(cfg, s, e).value)
  {
    var millis :| 0 <= millis < MILLIS && Runs.Reaches(NextOf(cfg), Start(cfg, millis), s);
    Runs.ReachesOn(NextOf(cfg), Start(cfg, millis), s, e);
  }

  /** The first three heartbeat timeouts of a server: whatever it has heard, it heard in time. */
  predicate Young(cfg: Settings, n: Node, now: nat) {
    && Sized(n, now) && n.myVc == VC_SERVER && n.circuits[VC_SERVER].vcState.LinkAlive?
    && now <= LINK_BREAK_MULTIPLIER * cfg.heartbeatTimeout
    && forall i :: 0 < i < MAX_VC ==> n.circuits[i].lastTrafficMillis <= now
  }

  lemma SweepYoung(cfg: Settings, n: Node, now: nat)
    requires Young(cfg, n, now)
    ensures Aged(cfg, n, now) == n
  {
    assert Aged(cfg, n, now).circuits == n.circuits;
  }

  lemma NextIsPass(cfg: Settings, s: State, wait: nat, a: Activity)
    requires s.node.state.WaitReceive? && Shaped(s.node, s.millis + wait) && Possible(s.node, a)
    ensures Next(cfg, s, Event(wait, ReceivePass(a))) == Some(State(Pass(cfg, s.node, a, s.millis + wait), s.millis + wait))
  {
    var now := s.millis + wait;
    assert now % MILLIS == now;
    assert Moved(cfg, s.node, ReceivePass(a), now) == Pass(cfg, s.node, a, now);
  }

  /** A pass of a young server. */
  lemma YoungPass(cfg: Settings, s: State, a: Activity, m: Node) returns (s': State)
    requires Reachable(cfg, s) && s.node.state.WaitReceive? && Shaped(s.node, s.millis + 10) && Possible(s.node, a)
    requires m == Acted(cfg, s.node, a, s.millis + 10) && Young(cfg, m, s.millis + 10)
    ensures Reachable(cfg, s') && s' == State(m, s.millis + 10)
  {
    SweepYoung(cfg, m, s.millis + 10);
    NextIsPass(cfg, s, 10, a);
    Step(cfg, s, Event(10, ReceivePass(a)));
    s' := State(m, s.millis + 10);
  }

  lemma SendingEnds(cfg: Settings, s: State) returns (s': State)
    requires Reachable(cfg, s) && s.node.state.WaitTxDone? && Young(cfg, s.node, s.millis) && Shaped(s.node, s.millis + 10)
    ensures Reachable(cfg, s') && s' == State(s.node.(state := WaitReceive), s.millis + 10)
  {
    Step(cfg, s, Event(10, TransmissionEnds));
    s' := State(s.node.(state := WaitReceive), s.millis + 10);
  }

  function UpAt(now: nat): Circuit {
    DOWN.(vcState := Connected, lastTrafficMillis := now)
  }

  /** HEARTBEAT, and UNKNOWN_ACKS answered with SYNC_ACKS. */
  lemma Asks(cfg: Settings, s: State, src: nat) returns (s': State)
    requires Reachable(cfg, s) && s.node.state.WaitReceive? && s.node.ackTimer == 0 && Young(cfg, s.node, s.millis)
    requires 0 < src < MAX_VC && s.node.circuits[src] == DOWN
    requires s.millis + 20 < MILLIS && s.millis + 20 <= LINK_BREAK_MULTIPLIER * cfg.heartbeatTimeout
    ensures Reachable(cfg, s') && s'.millis == s.millis + 20 && Young(cfg, s'.node, s'.millis)
    ensures s'.node == Changed(s.node, src, DOWN.(vcState := WaitZeroAcks, lastTrafficMillis := s.millis + 20)).(txDestVc := src, state := WaitTxDone)
  {
    var n, t := s.node, s.millis;
    var alive := Changed(n, src, DOWN.(vcState := LinkAlive, lastTrafficMillis := t + 10));
    s' := YoungPass(cfg, s, Received(Heartbeat(src, src, false), true), alive);
    var waiting := Changed(n, src, DOWN.(vcState := WaitZeroAcks, lastTrafficMillis := t + 20)).(txDestVc := src, state := WaitTxDone);
    s' := YoungPass(cfg, s', Received(UnknownAcks(src), true), waiting);
  }

  /** Node `src` gets connected with a young server. */
  lemma Joins(cfg: Settings, s: State, src: nat) returns (s': State)
    requires Reachable(cfg, s) && s.node.state.WaitReceive? && s.node.ackTimer == 0 && Young(cfg, s.node, s.millis)
    requires 0 < src < MAX_VC && s.node.circuits[src] == DOWN
    requires s.millis + 40 < MILLIS && s.millis + 40 <= LINK_BREAK_MULTIPLIER * cfg.heartbeatTimeout
    ensures Reachable(cfg, s') && s'.millis == s.millis + 40 && Young(cfg, s'.node, s'.millis)
    ensures s'.node == Changed(s.node, src, UpAt(s.millis + 40)).(txDestVc := src)
  {
    s' := Asks(cfg, s, src);
    s' := SendingEnds(cfg, s');
    s' := YoungPass(cfg, s', Received(ZeroAcks(src), true), Changed(s.node, src, UpAt(s.millis + 40)).(txDestVc := src));
  }

  /** A server connected with nodes 1 and 2, since 50 and 90 ms after it was switched on. */
  lemma BothJoined(cfg: Settings) returns (s: State)
    requires cfg.server && 250 <= cfg.heartbeatTimeout < 0x1_0000
    ensures Reachable(cfg, s) && s.millis == 90 && Young(cfg, s.node, 90)
    ensures s.node == PowerUp(true).(circuits := PowerUp(true).circuits[1 := UpAt(50)][2 := UpAt(90)], state := WaitReceive, txDestVc := 2)
  {
    Runs.ReachesHere(NextOf(cfg), Start(cfg, 0));
    assert Reachable(cfg, Start(cfg, 0));
    s := SendingEnds(cfg, Start(cfg, 0));
    s := Joins(cfg, s, 1);
    s := Joins(cfg, s, 2);
  }

  const DATA_TO_NODE_1 := Idle(false, false, false, false, false, ToCircuit(1), true, 100)

  /** Data go to node 1, at 100 ms. */
  lemma DataSent(cfg: Settings) returns (s: State)
    requires cfg.server && 250 <= cfg.heartbeatTimeout < 0x1_0000
    ensures Reachable(cfg, s) && s.millis == 110 && Young(cfg, s.node, 110) && s.node.state.WaitReceive?
    ensures s.node.ackTimer == 100 && s.node.rexmtTxDestVc == 1
    ensures s.node.circuits[1] == UpAt(50) && s.node.circuits[2] == UpAt(90)
  {
    s := BothJoined(cfg);
    s := YoungPass(cfg, s, DATA_TO_NODE_1, Saved(s.node, 1, true, 100));
    s := SendingEnds(cfg, s);
  }

  /** Before they are acknowledged data of node 2 are answered; then node 1 is heard. */
  lemma Misaligned(cfg: Settings) returns (s: State)
    requires cfg.server && 250 <= cfg.heartbeatTimeout < 0x1_0000
    ensures Reachable(cfg, s) && s.millis == 140 && Young(cfg, s.node, 140) && s.node.state.WaitReceive?
    ensures s.node.ackTimer == 100 && s.node.rexmtTxDestVc == 1 && s.node.txDestVc == 2
    ensures s.node.circuits[1] == UpAt(140) && s.node.circuits[2].vcState.Connected? && s.node.circuits[2].lastTrafficMillis == 120
  {
    s := DataSent(cfg);
    var answered := Changed(s.node, 2, UpAt(120).(rmtTxAckNumber := 1)).(txDestVc := 2, state := WaitTxDone);
    s := YoungPass(cfg, s, Received(DataFrame(2, 0, false), true), answered);
    s := SendingEnds(cfg, s);
    s := YoungPass(cfg, s, Received(Heartbeat(1, 1, false), true), Changed(s.node, 1, UpAt(140)));
  }

  /** A long reception later node 2 counts as lost, and the message to node 1 is given up although node 1 does not. */
  lemma MessageIsDeserted(cfg: Settings) returns (s: State, s': State)
    requires cfg.server && 250 <= cfg.heartbeatTimeout < 0x1_0000
    ensures Reachable(cfg, s) && |s.node.circuits| == MAX_VC && s.node.circuits[1].vcState.Connected?
    ensures Next(cfg, s, Event(LINK_BREAK_MULTIPLIER * cfg.heartbeatTimeout, ReceivePass(Receiving))) == Some(s')
    ensures s.node.rexmtTxDestVc == 1 && Deserts(s.node, s'.node) && s'.node.circuits[1] == s.node.circuits[1]
  {
    s := Misaligned(cfg);
    var now := s.millis + LINK_BREAK_MULTIPLIER * cfg.heartbeatTimeout;
    s' := State(Aged(cfg, s.node, now), now);
  }

  /** Data go to node 2, at 100 ms. */
  lemma DataSentToTwo(cfg: Settings) returns (s: State)
    requires cfg.server && 250 <= cfg.heartbeatTimeout < 0x1_0000
    ensures Reachable(cfg, s) && s.millis == 110 && Young(cfg, s.node, 110) && s.node.state.WaitReceive?
    ensures s.node.ackTimer == 100 && s.node.rexmtTxDestVc == 2 && s.node.rexmtFrameSentCount == 1
    ensures s.node.circuits == PowerUp(true).circuits[1 := UpAt(50)][2 := UpAt(90)]
  {
    s := BothJoined(cfg);
    s := YoungPass(cfg, s, DATA_TO_NODE_1.(message := ToCircuit(2)), Saved(s.node, 2, true, 100));
    s := SendingEnds(cfg, s);
  }

  /** The one attempt is used up, and the message is given up. */
  lemma GivenUp(cfg: Settings) returns (s: State)
    requires cfg.server && 250 <= cfg.heartbeatTimeout < 0x1_0000 && cfg.maxResends == 1
    ensures Reachable(cfg, s) && s.millis == 120 && Young(cfg, s.node, 120) && s.node.state.WaitReceive?
    ensures s.node.ackTimer == 0 && s.node.circuits == PowerUp(true).circuits[1 := UpAt(50)][2 := OnRetriesExhausted(UpAt(90))]
  {
    s := DataSentToTwo(cfg);
    var due := DATA_TO_NODE_1.(message := NoMessage, ackDue := true);
    s := YoungPass(cfg, s, due, AckAwaited(cfg, s.node, true, true, 100));
  }

  /** Data go to node 1 instead. */
  lemma GivenUpAndDataSent(cfg: Settings) returns (s: State)
    requires cfg.server && 250 <= cfg.heartbeatTimeout < 0x1_0000 && cfg.maxResends == 1
    ensures Reachable(cfg, s) && s.millis == 140 && Young(cfg, s.node, 140) && s.node.state.WaitReceive?
    ensures s.node.ackTimer == 100 && s.node.rexmtTxDestVc == 1
    ensures s.node.circuits == PowerUp(true).circuits[1 := UpAt(50)][2 := OnRetriesExhausted(UpAt(90))]
  {
    s := GivenUp(cfg);
    s := YoungPass(cfg, s, DATA_TO_NODE_1, Saved(s.node, 1, true, 100));
    s := SendingEnds(cfg, s);
  }

  /** What the DATA_ACK of node 2 changes: its circuit, and the timer. */
  function StrayAcked(n: Node): Node
    requires |n.circuits| == MAX_VC
  {
    Changed(n, 2, n.circuits[2].(txAckNumber := 1, lastTrafficMillis := 150)).(ackTimer := 0)
  }

  /** Then node 2 acknowledges the message that was given up, and the message to node 1 counts as acknowledged. */
  lemma StrayAckDeserts(cfg: Settings) returns (s: State, s': State)
    requires cfg.server && 250 <= cfg.heartbeatTimeout < 0x1_0000 && cfg.maxResends == 1
    ensures Reachable(cfg, s) && |s.node.circuits| == MAX_VC && s.node.circuits[1].vcState.Connected?
    ensures Next(cfg, s, Event(10, ReceivePass(Received(DataAck(2, 0), true)))) == Some(s')
    ensures s.node.rexmtTxDestVc == 1 && Deserts(s.node, s'.node) && s'.node.circuits[1] == s.node.circuits[1]
  {
    s := GivenUpAndDataSent(cfg);
    var ack := Received(DataAck(2, 0), true);
    s' := State(StrayAcked(s.node), 150);
    assert Acted(cfg, s.node, ack, 150).circuits == s'.node.circuits;
    SweepYoung(cfg, s'.node, 150);
    NextIsPass(cfg, s, 10, ack);
  }
}
