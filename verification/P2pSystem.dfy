/**
 Two radios and the air between them, from power-up through handshakes, data
 exchange, link resets and reboots.

 Every ZERO_ACKS transmission opens a new session.  The unbounded history of a
 session is kept beside the radios; nothing a radio does depends on it.
 */
module P2pSystem {
  import opened Basics
  import opened Arq
  import opened P2pRadio
  import Runs

  /** Session and unbounded number of a frame in flight. */
  datatype Tag = Tag(session: nat, number: nat)

  const NO_TAG := Tag(0, 0)

  /** `session` is the exchange in which this radio last zeroed, or is about to zero, its counters. */
  datatype Node = Node(radio: Radio, session: nat, inTag: Tag, airTag: Tag)

  /** The two histories of one session. */
  datatype Ends = Ends(left: Endpoint, right: Endpoint)
  {
    function At(side: Side): Endpoint {
      if side.Left? then left else right
    }

    function With(side: Side, e: Endpoint): Ends {
      if side.Left? then this.(left := e) else this.(right := e)
    }
  }

  datatype System = System(left: Node, right: Node, history: seq<Ends>)
  {
    function At(side: Side): Node {
      if side.Left? then left else right
    }

    function With(side: Side, n: Node): System {
      if side.Left? then this.(left := n) else this.(right := n)
    }

    function Radio(side: Side): Radio {
      At(side).radio
    }
  }

  datatype Move =
    | Pass(ev: Events)             // one pass of the loop
    | AirDone(delivered: bool)     // a transmission ends, heard by the peer or not
    | Noise                        // an unusable frame is received
    | Reboot

  function AsFlight(d: Option<Datagram>, tag: Tag): seq<Flight> {
    if d.Some? && d.value.Numbered? then [Flight(d.value.frame, tag.number)] else []
  }

  /** Numbered frames on their way to `side`, oldest first: the unread one, then the one on air. */
  function Queue(sys: System, side: Side): seq<Flight> {
    AsFlight(sys.Radio(side).inbox, sys.At(side).inTag)
      + AsFlight(sys.Radio(Other(side)).air, sys.At(Other(side)).airTag)
  }

  /** The running session as the protocol of module Arq sees it. */
  function Current(sys: System): Session
    requires sys.history != []
  {
    var ends := sys.history[|sys.history| - 1];
    Session(ends.left, ends.right, Queue(sys, Left), Queue(sys, Right))
  }

  /** The protocol action a pass in LINK_UP performs, if any. */
  function ActionOf(r: Radio, ev: Events): Option<Action> {
    if !r.state.LinkUp? then None
    else if r.inbox.Some? then
      if r.inbox.value.Numbered? then Some(Receive(ev.space)) else None
    else if !ev.quiet then None
    else if ev.heartbeatDue then Some(SendHeartbeat)
    else if r.regs.outstanding.Some? then
      if ev.retransmitDue && ev.resendAllowed then Some(Action.Retransmit) else None
    else if ev.command.Some? then Some(Send(ev.command.value))
    else if ev.data.Some? then Some(Send(Data(ev.data.value)))
    else None
  }

  function HistoryAfter(sys: System, me: Side, ev: Events): seq<Ends>
    requires ev.Valid()
  {
    var n := sys.At(me);
    var k := |sys.history| - 1;
    if n.radio.state.WaitSyncClocks? && Update(n.radio, ev).state.WaitTxZeroAcksDone? then
      sys.history + [Ends(FRESH, FRESH)]
    else match ActionOf(n.radio, ev)
      case Some(action) =>
        if k >= 0 && Enabled(Current(sys), me, action) then
          sys.history[k := sys.history[k].With(me, Apply(Current(sys), me, action, ev.sent).End(me))]
        else sys.history
      case None => sys.history
  }

  /** The tag of what a pass puts on air: an ACK stands for the latest acceptance, a message for the next number. */
  function AirTagAfter(sys: System, me: Side, r': Radio, history: seq<Ends>): Tag {
    if r'.air.None? || sys.Radio(me).air.Some? || history == [] then sys.At(me).airTag
    else
      var k := |history| - 1;
      var e := history[k].At(me);
      if r'.air.value.Numbered? && r'.air.value.frame.AckFrame? then
        Tag(k, if e.accepted == [] then 0 else |e.accepted| - 1)
      else Tag(k, e.acked)
  }

  function AfterPass(sys: System, me: Side, ev: Events): System
    requires ev.Valid()
  {
    var n := sys.At(me);
    var r' := Update(n.radio, ev);
    var history := HistoryAfter(sys, me, ev);
    var session :=
      if n.radio.state.WaitSyncClocks? && r'.state.WaitTxZeroAcksDone? then |sys.history|
      else if n.radio.state.WaitZeroAcks? && r'.state.LinkUp? then n.inTag.session
      else n.session;
    sys.With(me, Node(r', session, n.inTag, AirTagAfter(sys, me, r', history))).(history := history)
  }

  predicate Possible(sys: System, me: Side, move: Move) {
    var r, peer := sys.Radio(me), sys.Radio(Other(me));
    match move
    case Pass(ev) => ev.Valid()
    case AirDone(delivered) => r.air.Some? && (delivered ==> Listening(peer.state))
    case Noise => Listening(r.state)
    case Reboot => true
  }

  /** A move of radio `me`, or of the medium on its behalf. */
  function Do(sys: System, me: Side, move: Move): System
    requires Possible(sys, me, move)
  {
    var n, peer := sys.At(me), sys.At(Other(me));
    match move
    case Pass(ev) => AfterPass(sys, me, ev)
    case AirDone(delivered) =>
      var quiet := sys.With(me, n.(radio := n.radio.(air := None)));
      if delivered then
        quiet.With(Other(me), peer.(radio := peer.radio.(inbox := n.radio.air), inTag := n.airTag))
      else quiet
    case Noise => sys.With(me, n.(radio := n.radio.(inbox := Some(Unusable))))
    case Reboot =>
      sys.With(me, n.(radio := n.radio.(state := Resetting, regs := ZERO_REGISTERS, inbox := None, air := None)))
  }

  const POWERED_OFF := Radio(Resetting, ZERO_REGISTERS, None, None, [], [])
  const INITIAL := System(Node(POWERED_OFF, 0, NO_TAG, NO_TAG), Node(POWERED_OFF, 0, NO_TAG, NO_TAG), [])

  // ---------------------------------------------------------------------
  // Invariant
  // ---------------------------------------------------------------------

  predicate Useful(d: Option<Datagram>) {
    d.Some? && !d.value.Unusable?
  }

  /** `d` is on air from `me` or waits unread at the peer. */
  predicate Underway(sys: System, me: Side, d: Datagram) {
    sys.Radio(me).air == Some(d) || sys.Radio(Other(me)).inbox == Some(d)
  }

  predicate Joined(sys: System, me: Side) {
    IsUp(sys.Radio(me).state)
  }

  predicate Zeroing(sys: System, me: Side) {
    sys.Radio(me).state.WaitTxZeroAcksDone?
  }

  /** Medium: half duplex radios and never two meaningful frames waiting at once. */
  predicate MediumInv(sys: System, me: Side) {
    var r, peer := sys.Radio(me), sys.Radio(Other(me));
    && HalfDuplex(r)
    && !(Useful(r.inbox) && Useful(peer.inbox))
    && (r.air == Some(ZeroAcks) ==> !Useful(peer.inbox))
    && (r.air.Some? && r.air.value.Numbered? ==> peer.inbox != Some(SyncClocks))
  }

  /** Handshake: who may be zeroing or up while a handshake frame of `me` is under way. */
  predicate HandshakeInv(sys: System, me: Side) {
    var k := |sys.history| - 1;
    && (Joined(sys, me) || Zeroing(sys, me) ==> sys.At(me).session == k)
    && (Underway(sys, me, SyncClocks) ==> !Joined(sys, me) && !Zeroing(sys, me))
    && (Underway(sys, me, ZeroAcks) ==>
          k >= 0 && !Joined(sys, Other(me)) && !Zeroing(sys, Other(me)) && sys.history[k].At(Other(me)) == FRESH)
    && (Zeroing(sys, me) ==> !Zeroing(sys, Other(me)) && sys.history[k].At(me) == FRESH)
  }

  /** Tags of frames under way belong to the newest session. */
  predicate TagInv(sys: System, me: Side) {
    var k := |sys.history| - 1;
    var n, peer := sys.At(me), sys.At(Other(me));
    && (n.radio.air.Some? && (n.radio.air.value.Numbered? || n.radio.air.value.ZeroAcks?) ==> n.airTag.session == k)
    && (peer.radio.inbox.Some? && (peer.radio.inbox.value.Numbered? || peer.radio.inbox.value.ZeroAcks?) ==>
          peer.inTag.session == k)
  }

  /** A radio in LINK_UP holds exactly the registers of its end of the running session. */
  predicate RegistersInv(sys: System, me: Side) {
    Joined(sys, me) ==> sys.history != [] && sys.Radio(me).regs == sys.history[|sys.history| - 1].At(me).regs
  }

  predicate SideInv(sys: System, me: Side) {
    MediumInv(sys, me) && HandshakeInv(sys, me) && TagInv(sys, me) && RegistersInv(sys, me)
  }

  predicate PastInv(history: seq<Ends>) {
    forall k :: 0 <= k < |history| ==> Arq.Inv(Session(history[k].left, history[k].right, [], []))
  }

  predicate Sides(sys: System) {
    SideInv(sys, Left) && SideInv(sys, Right)
  }

  predicate SessionInv(sys: System) {
    PastInv(sys.history) && (sys.history != [] ==> Arq.Inv(Current(sys)))
  }

  predicate Inv(sys: System) {
    Sides(sys) && SessionInv(sys)
  }

  lemma InitialInv()
    ensures Inv(INITIAL)
  {
  }

  // ---------------------------------------------------------------------
  // The running session under changes of the medium
  // ---------------------------------------------------------------------

  function DropInbox(sys: System, me: Side): System {
    sys.With(me, sys.At(me).(radio := sys.Radio(me).(inbox := None)))
  }

  function DropAir(sys: System, me: Side): System {
    sys.With(me, sys.At(me).(radio := sys.Radio(me).(air := None)))
  }

  lemma LossSession(sys: System, sys': System, side: Side, index: nat)
    requires SessionInv(sys) && sys'.history == sys.history != [] && index < |Current(sys).To(side)|
    requires Current(sys') == Current(sys).WithTo(side, Without(Current(sys).To(side), index))
    ensures SessionInv(sys')
  {
    Arq.LoseInv(Current(sys), side, index);
  }

  lemma DropInboxCurrent(sys: System, me: Side)
    requires sys.history != []
    ensures var s, q := Current(sys), Queue(sys, me);
            if AsFlight(sys.Radio(me).inbox, sys.At(me).inTag) != []
            then q != [] && Current(DropInbox(sys, me)) == s.WithTo(me, Without(s.To(me), 0)) && s.To(me) == q
            else Current(DropInbox(sys, me)) == s
  {
    var sys', q := DropInbox(sys, me), Queue(sys, me);
    assert Queue(sys', Other(me)) == Queue(sys, Other(me));
    if AsFlight(sys.Radio(me).inbox, sys.At(me).inTag) != [] {
      assert Queue(sys', me) == Without(q, 0);
    } else {
      assert Queue(sys', me) == q;
    }
  }

  lemma DropInboxInv(sys: System, me: Side)
    requires SessionInv(sys)
    ensures SessionInv(DropInbox(sys, me))
  {
    if sys.history != [] {
      DropInboxCurrent(sys, me);
      if AsFlight(sys.Radio(me).inbox, sys.At(me).inTag) != [] {
        LossSession(sys, DropInbox(sys, me), me, 0);
      } else {
        SameCurrent(sys, DropInbox(sys, me));
      }
    }
  }

  lemma DropAirCurrent(sys: System, me: Side)
    requires sys.history != []
    ensures var s, q := Current(sys), Queue(sys, Other(me));
            if AsFlight(sys.Radio(me).air, sys.At(me).airTag) != []
            then q != [] && Current(DropAir(sys, me)) == s.WithTo(Other(me), Without(s.To(Other(me)), |q| - 1)) && s.To(Other(me)) == q
            else Current(DropAir(sys, me)) == s
  {
    var sys', q := DropAir(sys, me), Queue(sys, Other(me));
    assert Queue(sys', me) == Queue(sys, me);
    if AsFlight(sys.Radio(me).air, sys.At(me).airTag) != [] {
      assert Queue(sys', Other(me)) == Without(q, |q| - 1);
    } else {
      assert Queue(sys', Other(me)) == q;
    }
  }

  lemma SameCurrent(sys: System, sys': System)
    requires SessionInv(sys) && sys'.history == sys.history != [] && Current(sys') == Current(sys)
    ensures SessionInv(sys')
  {
  }

  lemma DropAirInv(sys: System, me: Side)
    requires SessionInv(sys)
    ensures SessionInv(DropAir(sys, me))
  {
    var sys' := DropAir(sys, me);
    if sys.history != [] {
      DropAirCurrent(sys, me);
      if AsFlight(sys.Radio(me).air, sys.At(me).airTag) != [] {
        LossSession(sys, sys', Other(me), |Queue(sys, Other(me))| - 1);
      } else {
        SameCurrent(sys, sys');
      }
    }
  }

  /** Only the numbered frames under way and the histories matter to the running session. */
  lemma SameSession(sys: System, sys': System)
    requires SessionInv(sys) && sys'.history == sys.history
    requires Queue(sys', Left) == Queue(sys, Left) && Queue(sys', Right) == Queue(sys, Right)
    ensures SessionInv(sys')
  {
  }

  // ---------------------------------------------------------------------
  // Moves other than a pass in LINK_UP
  // ---------------------------------------------------------------------

  lemma AirDoneSides(sys: System, me: Side, delivered: bool)
    requires Sides(sys) && Possible(sys, me, AirDone(delivered))
    ensures Sides(Do(sys, me, AirDone(delivered)))
  {
    var sys', you := Do(sys, me, AirDone(delivered)), Other(me);
    assert SideInv(sys, me) && SideInv(sys, you);
    AirDoneMedium(sys, me, delivered);
    AirDoneHandshake(sys, me, delivered);
    assert SideInv(sys', me) && SideInv(sys', you);
  }

  lemma AirDoneMedium(sys: System, me: Side, delivered: bool)
    requires Sides(sys) && Possible(sys, me, AirDone(delivered))
    ensures var sys' := Do(sys, me, AirDone(delivered));
            && MediumInv(sys', me) && MediumInv(sys', Other(me)) && TagInv(sys', me) && TagInv(sys', Other(me))
  {
    assert SideInv(sys, me) && SideInv(sys, Other(me));
  }

  lemma AirDoneHandshake(sys: System, me: Side, delivered: bool)
    requires Sides(sys) && Possible(sys, me, AirDone(delivered))
    ensures var sys' := Do(sys, me, AirDone(delivered));
            && HandshakeInv(sys', me) && HandshakeInv(sys', Other(me))
            && RegistersInv(sys', me) && RegistersInv(sys', Other(me))
  {
    var sys', you := Do(sys, me, AirDone(delivered)), Other(me);
    assert SideInv(sys, me) && SideInv(sys, you);
    NothingNew(sys, sys', me, me);
    NothingNew(sys, sys', me, you);
  }

  /** The end of a transmission puts nothing under way that was not. */
  lemma NothingNew(sys: System, sys': System, me: Side, side: Side)
    requires sys'.Radio(me).air.None? && sys'.Radio(Other(me)).air == sys.Radio(Other(me)).air
    requires sys'.Radio(me).inbox == sys.Radio(me).inbox
    requires sys'.Radio(Other(me)).inbox == sys.Radio(me).air || sys'.Radio(Other(me)).inbox == sys.Radio(Other(me)).inbox
    ensures Underway(sys', side, SyncClocks) ==> Underway(sys, side, SyncClocks)
    ensures Underway(sys', side, ZeroAcks) ==> Underway(sys, side, ZeroAcks)
  {
  }

  lemma AirDoneInv(sys: System, me: Side, delivered: bool)
    requires Inv(sys) && Possible(sys, me, AirDone(delivered))
    ensures Inv(Do(sys, me, AirDone(delivered)))
  {
    AirDoneSides(sys, me, delivered);
    AirDoneSession(sys, me, delivered);
  }

  /** A frame that is heard moves up to where the frame it replaces was waiting. */
  lemma HeardQueues(sys: System, me: Side)
    requires Possible(sys, me, AirDone(true))
    ensures var sys', dropped := Do(sys, me, AirDone(true)), DropInbox(sys, Other(me));
            Queue(sys', me) == Queue(dropped, me) && Queue(sys', Other(me)) == Queue(dropped, Other(me))
  {
    var flight := AsFlight(sys.Radio(me).air, sys.At(me).airTag);
    assert flight + [] == [] + flight;
  }

  lemma AirDoneSession(sys: System, me: Side, delivered: bool)
    requires SessionInv(sys) && Possible(sys, me, AirDone(delivered))
    ensures SessionInv(Do(sys, me, AirDone(delivered)))
  {
    var sys' := Do(sys, me, AirDone(delivered));
    if delivered {
      var dropped := DropInbox(sys, Other(me));
      DropInboxInv(sys, Other(me));
      HeardQueues(sys, me);
      SameSession(dropped, sys');
    } else {
      DropAirInv(sys, me);
    }
  }

  lemma NoiseSides(sys: System, me: Side)
    requires Sides(sys) && Possible(sys, me, Noise)
    ensures Sides(Do(sys, me, Noise))
  {
    var sys', you := Do(sys, me, Noise), Other(me);
    assert SideInv(sys, me) && SideInv(sys, you);
    UselessInbox(sys, me);
    assert SideInv(sys', me) && SideInv(sys', you);
  }

  /** An unusable frame takes the place of what waited unread. */
  lemma UselessInbox(sys: System, me: Side)
    requires SideInv(sys, me) && SideInv(sys, Other(me)) && Possible(sys, me, Noise)
    ensures SideInv(Do(sys, me, Noise), me)
    ensures SideInv(Do(sys, me, Noise), Other(me))
  {
    var sys', you := Do(sys, me, Noise), Other(me);
    LessUnderway(sys, sys', me, SyncClocks);
    LessUnderway(sys, sys', me, ZeroAcks);
  }

  lemma LessUnderway(sys: System, sys': System, me: Side, d: Datagram)
    requires sys'.Radio(me).air == sys.Radio(me).air && sys'.Radio(Other(me)).air == sys.Radio(Other(me)).air
    requires sys'.Radio(me).inbox == Some(Unusable) && sys'.Radio(Other(me)).inbox == sys.Radio(Other(me)).inbox
    ensures Underway(sys', me, d) == Underway(sys, me, d)
    ensures !d.Unusable? && Underway(sys', Other(me), d) ==> Underway(sys, Other(me), d)
  {
  }

  lemma NoiseInv(sys: System, me: Side)
    requires Inv(sys) && Possible(sys, me, Noise)
    ensures Inv(Do(sys, me, Noise))
  {
    NoiseSides(sys, me);
    DropInboxInv(sys, me);
    SameSession(DropInbox(sys, me), Do(sys, me, Noise));
  }

  lemma RebootSides(sys: System, me: Side)
    requires Sides(sys)
    ensures Sides(Do(sys, me, Reboot))
  {
    var sys', you := Do(sys, me, Reboot), Other(me);
    assert SideInv(sys, me) && SideInv(sys, you);
    RebootedSides(sys, me);
    assert SideInv(sys', me) && SideInv(sys', you);
  }

  lemma RebootedSides(sys: System, me: Side)
    requires SideInv(sys, me) && SideInv(sys, Other(me))
    ensures SideInv(Do(sys, me, Reboot), me)
    ensures SideInv(Do(sys, me, Reboot), Other(me))
  {
    var sys', you := Do(sys, me, Reboot), Other(me);
    assert forall d :: Underway(sys', me, d) ==> Underway(sys, me, d);
    assert forall d :: Underway(sys', you, d) ==> Underway(sys, you, d);
  }

  lemma RebootInv(sys: System, me: Side)
    requires Inv(sys)
    ensures Inv(Do(sys, me, Reboot))
  {
    RebootSides(sys, me);
    DropInboxInv(sys, me);
    DropAirInv(DropInbox(sys, me), me);
    SameSession(DropAir(DropInbox(sys, me), me), Do(sys, me, Reboot));
  }

  predicate Opens(r: Radio, r': Radio) {
    r.state.WaitSyncClocks? && r'.state.WaitTxZeroAcksDone?
  }

  /** Answering SYNC_CLOCKS with ZERO_ACKS: nobody is up and no older frame is under way. */
  lemma OpenSides(sys: System, me: Side, ev: Events)
    requires Sides(sys) && ev.Valid()
    requires Opens(sys.Radio(me), Update(sys.Radio(me), ev))
    ensures Sides(AfterPass(sys, me, ev))
    ensures AfterPass(sys, me, ev).history == sys.history + [Ends(FRESH, FRESH)]
    ensures Queue(AfterPass(sys, me, ev), me) == [] && Queue(AfterPass(sys, me, ev), Other(me)) == []
  {
    var sys', you := AfterPass(sys, me, ev), Other(me);
    assert SideInv(sys, me) && SideInv(sys, you);
    assert Underway(sys, you, SyncClocks);
    assert SideInv(sys', me) && SideInv(sys', you);
  }

  lemma OpenInv(sys: System, me: Side, ev: Events)
    requires Inv(sys) && ev.Valid()
    requires Opens(sys.Radio(me), Update(sys.Radio(me), ev))
    ensures Inv(AfterPass(sys, me, ev))
  {
    OpenSides(sys, me, ev);
    OpenedInv();
    OpenPast(sys.history);
    assert Current(AfterPass(sys, me, ev)) == OPENED;
  }

  lemma OpenPast(history: seq<Ends>)
    requires PastInv(history)
    ensures PastInv(history + [Ends(FRESH, FRESH)])
  {
    OpenedInv();
  }

  predicate QuietPass(r: Radio, ev: Events) {
    ev.Valid() && ActionOf(r, ev).None? && !Opens(r, Update(r, ev))
  }

  /** What a quiet pass may do to its radio. */
  predicate QuietShape(r: Radio, r': Radio) {
    && HalfDuplex(r')
    && r'.host == r.host && r'.drawn == r.drawn
    && (r'.inbox == r.inbox || r'.inbox == None)
    && (r'.air == r.air || r'.air == None
        || r'.air == Some(FindPartner) || (r'.air == Some(SyncClocks) && r'.state.WaitTxSyncClocksDone?))
    && (r'.state.WaitTxZeroAcksDone? ==> r.state.WaitTxZeroAcksDone? && r' == r)
    && (IsUp(r'.state) ==>
          || (r.state.WaitZeroAcks? && r.inbox == Some(ZeroAcks) && r' == EnterLinkUp(r.(inbox := None)))
          || (r.state.WaitTxZeroAcksDone? && r.air == None && r' == EnterLinkUp(r))
          || (IsUp(r.state) && r' == r.(state := r'.state, inbox := r'.inbox)))
  }

  lemma QuietPassShape(r: Radio, ev: Events)
    requires HalfDuplex(r) && QuietPass(r, ev)
    ensures QuietShape(r, Update(r, ev))
  {
    UpdateHalfDuplex(r, ev);
    if r.state.LinkUp? { QuietLinkUp(r, ev); }
  }

  /** In LINK_UP a quiet pass at most discards a frame or breaks the link. */
  lemma QuietLinkUp(r: Radio, ev: Events)
    requires QuietPass(r, ev) && r.state.LinkUp?
    ensures var r' := Update(r, ev);
            && r'.host == r.host && r'.drawn == r.drawn && r'.air == r.air && (r'.inbox == r.inbox || r'.inbox == None)
            && (r'.state.Resetting? || r' == r.(inbox := r'.inbox))
  {
  }

  function QuietNode(n: Node, r': Radio, airTag: Tag): Node {
    Node(r', if n.radio.state.WaitZeroAcks? && r'.state.LinkUp? then n.inTag.session else n.session, n.inTag, airTag)
  }

  lemma QuietShapeMedium(sys: System, me: Side, r': Radio, airTag: Tag)
    requires Sides(sys) && QuietShape(sys.Radio(me), r')
    ensures var sys' := sys.With(me, QuietNode(sys.At(me), r', airTag));
            MediumInv(sys', me) && MediumInv(sys', Other(me))
  {
    assert MediumInv(sys, me) && MediumInv(sys, Other(me));
  }

  lemma QuietShapeTags(sys: System, me: Side, r': Radio, airTag: Tag)
    requires Sides(sys) && QuietShape(sys.Radio(me), r')
    requires sys.Radio(me).air.Some? ==> airTag == sys.At(me).airTag
    ensures var sys' := sys.With(me, QuietNode(sys.At(me), r', airTag));
            && TagInv(sys', me) && TagInv(sys', Other(me))
            && RegistersInv(sys', me) && RegistersInv(sys', Other(me))
  {
    var you := Other(me);
    assert SideInv(sys, me) && SideInv(sys, you);
    if sys.Radio(me).inbox == Some(ZeroAcks) { assert Underway(sys, you, ZeroAcks); }
  }

  lemma QuietShapeHandshake(sys: System, me: Side, r': Radio, airTag: Tag)
    requires Sides(sys) && QuietShape(sys.Radio(me), r')
    requires sys.Radio(me).air.Some? ==> airTag == sys.At(me).airTag
    ensures var sys' := sys.With(me, QuietNode(sys.At(me), r', airTag));
            HandshakeInv(sys', me) && HandshakeInv(sys', Other(me))
  {
    var you, r := Other(me), sys.Radio(me);
    var sys' := sys.With(me, QuietNode(sys.At(me), r', airTag));
    assert SideInv(sys, me) && SideInv(sys, you);
    if r.inbox == Some(ZeroAcks) { assert Underway(sys, you, ZeroAcks); }
    assert Underway(sys', me, ZeroAcks) ==> Underway(sys, me, ZeroAcks);
    assert Underway(sys', you, ZeroAcks) ==> Underway(sys, you, ZeroAcks);
    assert Underway(sys', you, SyncClocks) ==> Underway(sys, you, SyncClocks);
    assert Underway(sys', me, SyncClocks) && !Underway(sys, me, SyncClocks) ==> r'.state.WaitTxSyncClocksDone?;
    assert HandshakeInv(sys', me);
    assert HandshakeInv(sys', you);
  }

  lemma QuietPassSides(sys: System, me: Side, ev: Events)
    requires Sides(sys) && QuietPass(sys.Radio(me), ev)
    ensures Sides(AfterPass(sys, me, ev))
  {
    var n, r' := sys.At(me), Update(sys.Radio(me), ev);
    assert SideInv(sys, me) && SideInv(sys, Other(me));
    QuietPassShape(n.radio, ev);
    var airTag := AirTagAfter(sys, me, r', sys.history);
    QuietShapeMedium(sys, me, r', airTag);
    QuietShapeTags(sys, me, r', airTag);
    QuietShapeHandshake(sys, me, r', airTag);
    var sys' := sys.With(me, QuietNode(n, r', airTag));
    assert AfterPass(sys, me, ev) == sys';
    assert SideInv(sys', me) && SideInv(sys', Other(me));
  }

  lemma QuietShapeSession(sys: System, me: Side, r': Radio, airTag: Tag)
    requires SessionInv(sys) && QuietShape(sys.Radio(me), r')
    requires sys.Radio(me).air.Some? ==> airTag == sys.At(me).airTag
    ensures SessionInv(sys.With(me, QuietNode(sys.At(me), r', airTag)))
  {
    var sys', r := sys.With(me, QuietNode(sys.At(me), r', airTag)), sys.Radio(me);
    var s1 := if r'.inbox == None then DropInbox(sys, me) else sys;
    if r'.inbox == None { DropInboxInv(sys, me); }
    var s2 := if r'.air != r.air then DropAir(s1, me) else s1;
    if r'.air != r.air { DropAirInv(s1, me); }
    assert Queue(sys', me) == Queue(s2, me);
    assert Queue(sys', Other(me)) == Queue(s2, Other(me));
    SameSession(s2, sys');
  }

  /** A pass that neither acts in LINK_UP nor opens a session at most loses numbered frames. */
  lemma QuietPassInv(sys: System, me: Side, ev: Events)
    requires Inv(sys) && QuietPass(sys.Radio(me), ev)
    ensures Inv(AfterPass(sys, me, ev))
  {
    QuietPassSides(sys, me, ev);
    var r' := Update(sys.Radio(me), ev);
    var airTag := AirTagAfter(sys, me, r', sys.history);
    assert SideInv(sys, me);
    QuietPassShape(sys.Radio(me), ev);
    QuietShapeSession(sys, me, r', airTag);
    assert AfterPass(sys, me, ev) == sys.With(me, QuietNode(sys.At(me), r', airTag));
  }

  // ---------------------------------------------------------------------
  // A pass in LINK_UP is a step of the session protocol
  // ---------------------------------------------------------------------

  /** Registers and frame put on air by a LINK_UP pass, judged by the protocol step it stands for. */
  predicate Mirrors(r: Radio, r': Radio, e': Endpoint, tag: Tag, emitted: seq<Flight>) {
    && r'.inbox == None
    && (IsUp(r'.state) || r'.state.Resetting?)
    && (IsUp(r'.state) ==> r'.regs == e'.regs)
    && (r'.air.Some? ==> r'.air.value.Numbered? && !r'.state.LinkUp?)
    && (r'.state.LinkUpWaitTxDone? ==> r'.air.Some?)
    && AsFlight(r'.air, tag) == emitted
  }

  function TagFor(air: Option<Datagram>, e: Endpoint, k: nat): Tag {
    if air.Some? && air.value.Numbered? && air.value.frame.AckFrame? then
      Tag(k, if e.accepted == [] then 0 else |e.accepted| - 1)
    else Tag(k, e.acked)
  }

  /** What the peer's queue gains when `s` becomes `s'`. */
  function Emitted(s: Session, s': Session, me: Side): seq<Flight> {
    if |s.To(Other(me))| <= |s'.To(Other(me))| then s'.To(Other(me))[|s.To(Other(me))|..] else []
  }

  /** What is put on air mirrors what the step appends to the peer's queue. */
  predicate MirrorsStep(s: Session, s': Session, me: Side, r: Radio, r': Radio, k: nat) {
    && Mirrors(r, r', s'.End(me), TagFor(r'.air, s'.End(me), k), Emitted(s, s', me))
    && s.To(me) != []
    && s' == s.WithEnd(me, s'.End(me)).WithTo(me, s.To(me)[1..])
              .WithTo(Other(me), s.To(Other(me)) + Emitted(s, s', me))
  }

  lemma AckMirrors(s: Session, me: Side, r: Radio, ev: Events, k: nat)
    requires r.state.LinkUp? && r.air.None? && r.regs == s.End(me).regs && ev.Valid()
    requires s.To(me) != [] && s.To(me)[0].frame.AckFrame? && r.inbox == Some(Numbered(s.To(me)[0].frame))
    ensures MirrorsStep(s, Apply(s, me, Receive(ev.space), ev.sent), me, r, Update(r, ev), k)
  {
    assert s.To(Other(me)) == s.To(Other(me)) + [];
  }

  lemma RefusedMirrors(s: Session, me: Side, r: Radio, ev: Events, k: nat)
    requires r.state.LinkUp? && r.air.None? && r.regs == s.End(me).regs && ev.Valid()
    requires s.To(me) != [] && s.To(me)[0].frame.MessageFrame? && r.inbox == Some(Numbered(s.To(me)[0].frame))
    requires Validate(r.regs, s.To(me)[0].frame.number, s.To(me)[0].frame.message, ev.space).Bad?
    ensures MirrorsStep(s, Apply(s, me, Receive(ev.space), ev.sent), me, r, Update(r, ev), k)
  {
    assert s.To(Other(me)) == s.To(Other(me)) + [];
  }

  lemma AnsweredMirrors(s: Session, me: Side, r: Radio, ev: Events, k: nat)
    requires r.state.LinkUp? && r.air.None? && r.regs == s.End(me).regs && ev.Valid()
    requires s.To(me) != [] && s.To(me)[0].frame.MessageFrame? && r.inbox == Some(Numbered(s.To(me)[0].frame))
    requires !Validate(r.regs, s.To(me)[0].frame.number, s.To(me)[0].frame.message, ev.space).Bad?
    ensures MirrorsStep(s, Apply(s, me, Receive(ev.space), ev.sent), me, r, Update(r, ev), k)
  {
    assert s.To(Other(me)) == s.To(Other(me)) + [];
  }

  lemma ReceiveMirrors(s: Session, me: Side, r: Radio, ev: Events, k: nat)
    requires r.state.LinkUp? && r.air.None? && r.regs == s.End(me).regs && ev.Valid()
    requires r.inbox.Some? && r.inbox.value.Numbered? && s.To(me) != [] && s.To(me)[0].frame == r.inbox.value.frame
    ensures var s' := Apply(s, me, Receive(ev.space), ev.sent);
            var r' := Update(r, ev);
            && Mirrors(r, r', s'.End(me), TagFor(r'.air, s'.End(me), k), Emitted(s, s', me))
            && s' == s.WithEnd(me, s'.End(me)).WithTo(me, s.To(me)[1..])
                      .WithTo(Other(me), s.To(Other(me)) + Emitted(s, s', me))
  {
    var f := s.To(me)[0].frame;
    if f.AckFrame? {
      AckMirrors(s, me, r, ev, k);
    } else if Validate(r.regs, f.number, f.message, ev.space).Bad? {
      RefusedMirrors(s, me, r, ev, k);
    } else {
      AnsweredMirrors(s, me, r, ev, k);
    }
  }

  lemma SendMirrors(s: Session, me: Side, r: Radio, ev: Events, k: nat)
    requires r.state.LinkUp? && r.air.None? && r.inbox.None? && r.regs == s.End(me).regs && ev.Valid()
    requires r.regs.outstanding.Some? ==> r.regs.outstanding.value.MessageFrame?
    requires ActionOf(r, ev).Some? && Enabled(s, me, ActionOf(r, ev).value)
    ensures var s' := Apply(s, me, ActionOf(r, ev).value, ev.sent);
            var r' := Update(r, ev);
            && Mirrors(r, r', s'.End(me), TagFor(r'.air, s'.End(me), k), Emitted(s, s', me))
            && s' == s.WithEnd(me, s'.End(me)).WithTo(Other(me), s.To(Other(me)) + Emitted(s, s', me))
  {
    var q := s.To(Other(me));
    assert q == q + [];
  }

  predicate Acts(sys: System, me: Side, ev: Events) {
    ev.Valid() && sys.Radio(me).state.LinkUp? && ActionOf(sys.Radio(me), ev).Some?
  }

  /** What a radio in LINK_UP knows about the running session. */
  predicate Ready(sys: System, me: Side) {
    && sys.history != []
    && sys.Radio(me).state.LinkUp? && sys.Radio(me).air.None?
    && sys.Radio(me).regs == Current(sys).End(me).regs
    && (sys.Radio(me).regs.outstanding.Some? ==> sys.Radio(me).regs.outstanding.value.MessageFrame?)
  }

  lemma InvReady(sys: System, me: Side)
    requires Inv(sys) && sys.Radio(me).state.LinkUp?
    ensures Ready(sys, me)
  {
    assert SideInv(sys, me);
    assert Toward(Current(sys), Other(me));
  }

  function ActedHistory(sys: System, me: Side, e': Endpoint): seq<Ends>
    requires sys.history != []
  {
    sys.history[|sys.history| - 1 := sys.history[|sys.history| - 1].With(me, e')]
  }

  function ActedSystem(sys: System, me: Side, r': Radio, airTag: Tag, e': Endpoint): System
    requires sys.history != []
  {
    sys.With(me, Node(r', sys.At(me).session, sys.At(me).inTag, airTag)).(history := ActedHistory(sys, me, e'))
  }

  lemma ActedEnabled(sys: System, me: Side, ev: Events)
    requires Ready(sys, me) && Acts(sys, me, ev)
    ensures Enabled(Current(sys), me, ActionOf(sys.Radio(me), ev).value)
  {
  }

  lemma ActedTag(sys: System, me: Side, r': Radio, e': Endpoint)
    requires Ready(sys, me)
    ensures AirTagAfter(sys, me, r', ActedHistory(sys, me, e'))
            == if r'.air.Some? then TagFor(r'.air, e', |sys.history| - 1) else sys.At(me).airTag
  {
  }

  /** Composition of a pass in LINK_UP that acts. */
  lemma ActedPass(sys: System, me: Side, ev: Events)
    requires Ready(sys, me) && Acts(sys, me, ev)
    ensures Enabled(Current(sys), me, ActionOf(sys.Radio(me), ev).value)
    ensures var r' := Update(sys.Radio(me), ev);
            var e' := Apply(Current(sys), me, ActionOf(sys.Radio(me), ev).value, ev.sent).End(me);
            AfterPass(sys, me, ev)
              == ActedSystem(sys, me, r', if r'.air.Some? then TagFor(r'.air, e', |sys.history| - 1) else sys.At(me).airTag, e')
  {
    ActedEnabled(sys, me, ev);
    var e' := Apply(Current(sys), me, ActionOf(sys.Radio(me), ev).value, ev.sent).End(me);
    assert HistoryAfter(sys, me, ev) == ActedHistory(sys, me, e');
    ActedTag(sys, me, Update(sys.Radio(me), ev), e');
  }

  /** The running session after a pass that mirrors the protocol step `s'`. */
  lemma ActedCurrent(sys: System, me: Side, r': Radio, s': Session, airTag: Tag, rest: seq<Flight>)
    requires Ready(sys, me)
    requires r'.air.Some? ==> airTag == TagFor(r'.air, s'.End(me), |sys.history| - 1)
    requires Mirrors(sys.Radio(me), r', s'.End(me), airTag, Emitted(Current(sys), s', me))
    requires rest == AsFlight(sys.Radio(Other(me)).air, sys.At(Other(me)).airTag)
    requires s' == Current(sys).WithEnd(me, s'.End(me)).WithTo(me, rest)
                     .WithTo(Other(me), Queue(sys, Other(me)) + Emitted(Current(sys), s', me))
    ensures Current(ActedSystem(sys, me, r', airTag, s'.End(me))) == s'
  {
    var sys' := ActedSystem(sys, me, r', airTag, s'.End(me));
    ActedQueues(sys, me, r', airTag, s'.End(me));
    assert sys'.history[|sys.history| - 1] == sys.history[|sys.history| - 1].With(me, s'.End(me));
  }

  lemma ActedQueues(sys: System, me: Side, r': Radio, airTag: Tag, e': Endpoint)
    requires Ready(sys, me) && r'.inbox == None
    ensures var sys' := ActedSystem(sys, me, r', airTag, e');
            && Queue(sys', Other(me)) == Queue(sys, Other(me)) + AsFlight(r'.air, airTag)
            && Queue(sys', me) == AsFlight(sys.Radio(Other(me)).air, sys.At(Other(me)).airTag)
  {
    var sys' := ActedSystem(sys, me, r', airTag, e');
    InboxRead(sys', me);
    assert sys'.At(Other(me)) == sys.At(Other(me));
    assert Queue(sys, Other(me)) == AsFlight(sys.Radio(Other(me)).inbox, sys.At(Other(me)).inTag) + [];
  }

  lemma InboxRead(sys: System, me: Side)
    requires sys.Radio(me).inbox == None
    ensures Queue(sys, me) == AsFlight(sys.Radio(Other(me)).air, sys.At(Other(me)).airTag)
  {
  }

  /** The session step a pass stands for. */
  function Stepped(sys: System, me: Side, ev: Events): Session
    requires Ready(sys, me) && Acts(sys, me, ev)
  {
    ActedEnabled(sys, me, ev);
    Apply(Current(sys), me, ActionOf(sys.Radio(me), ev).value, ev.sent)
  }

  function StillOnAir(sys: System, me: Side): seq<Flight> {
    AsFlight(sys.Radio(Other(me)).air, sys.At(Other(me)).airTag)
  }

  lemma PassMirrors(sys: System, me: Side, ev: Events)
    requires Ready(sys, me) && Acts(sys, me, ev)
    ensures var r', s, s' := Update(sys.Radio(me), ev), Current(sys), Stepped(sys, me, ev);
            && Mirrors(sys.Radio(me), r', s'.End(me), TagFor(r'.air, s'.End(me), |sys.history| - 1), Emitted(s, s', me))
            && s' == s.WithEnd(me, s'.End(me)).WithTo(me, StillOnAir(sys, me))
                      .WithTo(Other(me), Queue(sys, Other(me)) + Emitted(s, s', me))
  {
    var r, s, k := sys.Radio(me), Current(sys), |sys.history| - 1;
    if r.inbox.Some? {
      ReceiveMirrors(s, me, r, ev, k);
      assert s.To(me)[1..] == StillOnAir(sys, me);
    } else {
      SendMirrors(s, me, r, ev, k);
      assert s.To(me) == StillOnAir(sys, me);
    }
  }

  /** A pass in LINK_UP that acts is exactly one step of the session protocol. */
  lemma PassSimulates(sys: System, me: Side, ev: Events)
    requires Ready(sys, me) && Acts(sys, me, ev)
    ensures AfterPass(sys, me, ev).history != []
    ensures Enabled(Current(sys), me, ActionOf(sys.Radio(me), ev).value)
    ensures Current(AfterPass(sys, me, ev)) == Apply(Current(sys), me, ActionOf(sys.Radio(me), ev).value, ev.sent)
    ensures var r' := Update(sys.Radio(me), ev);
            var e' := Current(AfterPass(sys, me, ev)).End(me);
            && AfterPass(sys, me, ev) == ActedSystem(sys, me, r', AfterPass(sys, me, ev).At(me).airTag, e')
            && (r'.air.Some? ==> AfterPass(sys, me, ev).At(me).airTag.session == |sys.history| - 1)
            && Mirrors(sys.Radio(me), r', e', AfterPass(sys, me, ev).At(me).airTag,
                       Emitted(Current(sys), Current(AfterPass(sys, me, ev)), me))
  {
    var r', s' := Update(sys.Radio(me), ev), Stepped(sys, me, ev);
    ActedPass(sys, me, ev);
    PassMirrors(sys, me, ev);
    var airTag := AfterPass(sys, me, ev).At(me).airTag;
    MirrorsTag(sys.Radio(me), r', s'.End(me), TagFor(r'.air, s'.End(me), |sys.history| - 1), airTag, Emitted(Current(sys), s', me));
    ActedCurrent(sys, me, r', s', airTag, StillOnAir(sys, me));
  }

  /** The tag matters only while something is on air. */
  lemma MirrorsTag(r: Radio, r': Radio, e': Endpoint, tag: Tag, tag': Tag, emitted: seq<Flight>)
    requires Mirrors(r, r', e', tag, emitted) && (r'.air.Some? ==> tag' == tag)
    ensures Mirrors(r, r', e', tag', emitted)
  {
  }

  lemma ActedSides(sys: System, me: Side, r': Radio, airTag: Tag, e': Endpoint, emitted: seq<Flight>)
    requires Sides(sys) && Ready(sys, me)
    requires Mirrors(sys.Radio(me), r', e', airTag, emitted)
    requires r'.air.Some? ==> airTag.session == |sys.history| - 1
    ensures Sides(ActedSystem(sys, me, r', airTag, e'))
  {
    var sys', you := ActedSystem(sys, me, r', airTag, e'), Other(me);
    var k := |sys.history| - 1;
    assert SideInv(sys, me) && SideInv(sys, you);
    assert sys'.history[k].At(you) == sys.history[k].At(you) && sys'.history[k].At(me) == e';
    assert sys'.At(you) == sys.At(you) && sys'.Radio(me) == r';
    assert Underway(sys', me, SyncClocks) ==> Underway(sys, me, SyncClocks);
    assert Underway(sys', you, SyncClocks) ==> Underway(sys, you, SyncClocks);
    assert Underway(sys', me, ZeroAcks) ==> Underway(sys, me, ZeroAcks);
    assert Underway(sys', you, ZeroAcks) ==> Underway(sys, you, ZeroAcks);
    assert MediumInv(sys', me) && MediumInv(sys', you);
    assert TagInv(sys', me) && TagInv(sys', you);
    assert HandshakeInv(sys', me) && HandshakeInv(sys', you);
  }

  /** Losing every frame leaves a session whose histories still satisfy the protocol's invariant. */
  lemma Emptied(s: Session)
    requires Arq.Inv(s)
    ensures Arq.Inv(Session(s.left, s.right, [], []))
    decreases |s.toLeft| + |s.toRight|
  {
    if s.toLeft != [] {
      Arq.LoseInv(s, Left, 0);
      Emptied(s.WithTo(Left, Without(s.toLeft, 0)));
    } else if s.toRight != [] {
      Arq.LoseInv(s, Right, 0);
      Emptied(s.WithTo(Right, Without(s.toRight, 0)));
    }
  }

  lemma SessionStep(s: Session, me: Side, action: Action, sent: bool)
    requires Arq.Inv(s) && Enabled(s, me, action)
    ensures var s' := Apply(s, me, action, sent);
            Arq.Inv(s') && Arq.Inv(Session(s'.left, s'.right, [], []))
  {
    Arq.StepInv(s, me, action, sent);
    Emptied(Apply(s, me, action, sent));
  }

  lemma ReplacePast(history: seq<Ends>, ends: Ends)
    requires PastInv(history) && history != []
    requires Arq.Inv(Session(ends.left, ends.right, [], []))
    ensures PastInv(history[|history| - 1 := ends])
  {
  }

  lemma ActedSession(sys: System, me: Side, ev: Events)
    requires Ready(sys, me) && Acts(sys, me, ev) && SessionInv(sys)
    ensures SessionInv(AfterPass(sys, me, ev))
  {
    PassSimulates(sys, me, ev);
    var sys' := AfterPass(sys, me, ev);
    SessionStep(Current(sys), me, ActionOf(sys.Radio(me), ev).value, ev.sent);
    ReplacePast(sys.history, sys'.history[|sys.history| - 1]);
  }

  lemma ActedPassInv(sys: System, me: Side, ev: Events)
    requires Inv(sys) && Acts(sys, me, ev)
    ensures Inv(AfterPass(sys, me, ev))
  {
    InvReady(sys, me);
    PassSimulates(sys, me, ev);
    var sys' := AfterPass(sys, me, ev);
    ActedSides(sys, me, Update(sys.Radio(me), ev), sys'.At(me).airTag, Current(sys').End(me),
               Emitted(Current(sys), Current(sys'), me));
    ActedSession(sys, me, ev);
  }

  /** Every move of the system keeps its invariant. */
  lemma MoveInv(sys: System, me: Side, move: Move)
    requires Inv(sys) && Possible(sys, me, move)
    ensures Inv(Do(sys, me, move))
  {
    match move
    case Pass(ev) =>
      if Acts(sys, me, ev) { ActedPassInv(sys, me, ev); }
      else if Opens(sys.Radio(me), Update(sys.Radio(me), ev)) { OpenInv(sys, me, ev); }
      else { QuietPassInv(sys, me, ev); }
    case AirDone(delivered) => AirDoneInv(sys, me, delivered);
    case Noise => NoiseInv(sys, me);
    case Reboot => RebootInv(sys, me);
  }

  // ---------------------------------------------------------------------
  // What the hosts see
  // ---------------------------------------------------------------------

  /** The messages other than HEARTBEATs, in order. */
  function Payloads(messages: seq<Message>): seq<Message> {
    if messages == [] then []
    else
      var m := messages[|messages| - 1];
      Payloads(messages[..|messages| - 1]) + (if m.Heartbeat? then [] else [m])
  }

  lemma PayloadsSnoc(messages: seq<Message>, m: Message)
    ensures Payloads(messages + [m]) == Payloads(messages) + (if m.Heartbeat? then [] else [m])
  {
    assert (messages + [m])[..|messages|] == messages;
  }

  /** All messages `side` has accepted, session after session. */
  function Taken(history: seq<Ends>, side: Side): seq<Message> {
    if history == [] then []
    else Taken(history[..|history| - 1], side) + Payloads(history[|history| - 1].At(side).accepted)
  }

  /** All messages `side` has sent for the first time, session after session. */
  function Given(history: seq<Ends>, side: Side): seq<Message> {
    if history == [] then []
    else Given(history[..|history| - 1], side) + Payloads(history[|history| - 1].At(side).offered)
  }

  /** The buffers of a radio hold exactly what its sessions record. */
  predicate LogInv(sys: System, me: Side) {
    sys.Radio(me).host == Taken(sys.history, me) && sys.Radio(me).drawn == Given(sys.history, me)
  }

  /** Host and transmit buffers gain exactly what the histories gain. */
  predicate Logs(r: Radio, r': Radio, e: Endpoint, e': Endpoint) {
    && r.host <= r'.host && Payloads(e'.accepted) == Payloads(e.accepted) + r'.host[|r.host|..]
    && r.drawn <= r'.drawn && Payloads(e'.offered) == Payloads(e.offered) + r'.drawn[|r.drawn|..]
  }

  lemma ReceiveLogs(s: Session, me: Side, r: Radio, ev: Events)
    requires r.state.LinkUp? && r.regs == s.End(me).regs && ev.Valid()
    requires s.To(me) != [] && r.inbox == Some(Numbered(s.To(me)[0].frame))
    ensures Logs(r, Update(r, ev), s.End(me), Apply(s, me, Receive(ev.space), ev.sent).End(me))
  {
    var e, e' := s.End(me), ReceiveHead(s, me, ev.space, ev.sent).End(me);
    match s.To(me)[0].frame
    case AckFrame(number) =>
      assert e'.accepted == e.accepted;
    case MessageFrame(number, message) =>
      var r' := ReceiveLinkUp(r.(inbox := None), Numbered(s.To(me)[0].frame), ev);
      assert Update(r, ev).host == r'.host && Update(r, ev).drawn == r'.drawn;
      if Validate(r.regs, number, message, ev.space).Accepted? {
        PayloadsSnoc(e.accepted, message);
        assert e'.accepted == e.accepted + [message];
      } else {
        assert e'.accepted == e.accepted && r'.host == r.host;
      }
      assert e'.offered == e.offered && r'.drawn == r.drawn;
  }

  lemma OfferLogs(r: Radio, message: Message, ev: Events, e: Endpoint)
    requires r.regs == e.regs && (e.regs.outstanding.None? || message.Heartbeat?)
    ensures Logs(r, FirstTransmit(r, message, ev), e, Offer(e, message))
  {
    PayloadsSnoc(e.offered, message);
  }

  lemma SendLogs(s: Session, me: Side, r: Radio, ev: Events)
    requires r.state.LinkUp? && r.inbox.None? && r.regs == s.End(me).regs && ev.Valid()
    requires ActionOf(r, ev).Some? && Enabled(s, me, ActionOf(r, ev).value)
    ensures Logs(r, Update(r, ev), s.End(me), Apply(s, me, ActionOf(r, ev).value, ev.sent).End(me))
  {
    SendKeepsLogs(r, ev);
    SendEnd(s, me, ActionOf(r, ev).value, ev.sent);
    match ActionOf(r, ev).value
    case Send(message) => OfferLogs(r, message, ev, s.End(me));
    case SendHeartbeat => OfferLogs(r, Heartbeat, ev, s.End(me));
    case Retransmit =>
  }

  /** Which transmission a sending pass makes; a link break afterwards changes neither buffer. */
  lemma SendKeepsLogs(r: Radio, ev: Events)
    requires r.state.LinkUp? && r.inbox.None? && ev.Valid() && ActionOf(r, ev).Some?
    ensures var a := ActionOf(r, ev).value;
            var r' := if a.Send? then FirstTransmit(r, a.message, ev)
                      else if a.SendHeartbeat? then FirstTransmit(r, Heartbeat, ev) else r;
            Update(r, ev).host == r'.host && Update(r, ev).drawn == r'.drawn
  {
  }

  lemma SendEnd(s: Session, me: Side, action: Action, sent: bool)
    requires Enabled(s, me, action) && (action.Send? || action.SendHeartbeat? || action.Retransmit?)
    ensures Apply(s, me, action, sent).End(me)
            == if action.Send? then Offer(s.End(me), action.message)
               else if action.SendHeartbeat? then Offer(s.End(me), Heartbeat) else s.End(me)
  {
  }

  lemma LastLogs(history: seq<Ends>, ends: Ends, side: Side)
    requires history != []
    ensures var k := |history| - 1;
            && Taken(history[k := ends], side) == Taken(history[..k], side) + Payloads(ends.At(side).accepted)
            && Given(history[k := ends], side) == Given(history[..k], side) + Payloads(ends.At(side).offered)
  {
    var k := |history| - 1;
    assert history[k := ends][..k] == history[..k];
  }

  lemma GrownLog(log: seq<Message>, log': seq<Message>, past: seq<Message>, e: seq<Message>, e': seq<Message>)
    requires log <= log' && e' == e + log'[|log|..] && log == past + e
    ensures log' == past + e'
  {
    assert log' == log + log'[|log|..];
  }

  lemma ActedSystemLogs(sys: System, me: Side, r': Radio, airTag: Tag, e': Endpoint)
    requires sys.history != [] && LogInv(sys, Left) && LogInv(sys, Right)
    requires Logs(sys.Radio(me), r', sys.history[|sys.history| - 1].At(me), e')
    ensures LogInv(ActedSystem(sys, me, r', airTag, e'), Left) && LogInv(ActedSystem(sys, me, r', airTag, e'), Right)
  {
    var sys', k := ActedSystem(sys, me, r', airTag, e'), |sys.history| - 1;
    var last := sys.history[k];
    var ends := last.With(me, e');
    assert sys.history[k := last] == sys.history;
    LastLogs(sys.history, last, me);
    LastLogs(sys.history, ends, me);
    LastLogs(sys.history, last, Other(me));
    LastLogs(sys.history, ends, Other(me));
    assert ends.At(Other(me)) == last.At(Other(me)) && ends.At(me) == e';
    GrownLog(sys.Radio(me).host, r'.host, Taken(sys.history[..k], me), Payloads(last.At(me).accepted), Payloads(e'.accepted));
    GrownLog(sys.Radio(me).drawn, r'.drawn, Given(sys.history[..k], me), Payloads(last.At(me).offered), Payloads(e'.offered));
    assert LogInv(sys', me);
    assert LogInv(sys', Other(me));
  }

  lemma ActedPassLogs(sys: System, me: Side, ev: Events)
    requires Ready(sys, me) && Acts(sys, me, ev) && LogInv(sys, Left) && LogInv(sys, Right)
    ensures LogInv(AfterPass(sys, me, ev), Left) && LogInv(AfterPass(sys, me, ev), Right)
  {
    PassSimulates(sys, me, ev);
    if sys.Radio(me).inbox.Some? {
      ReceiveLogs(Current(sys), me, sys.Radio(me), ev);
    } else {
      SendLogs(Current(sys), me, sys.Radio(me), ev);
    }
    ActedSystemLogs(sys, me, Update(sys.Radio(me), ev), AfterPass(sys, me, ev).At(me).airTag,
                    Current(AfterPass(sys, me, ev)).End(me));
  }

  lemma OpenedLogs(history: seq<Ends>, side: Side)
    ensures Taken(history + [Ends(FRESH, FRESH)], side) == Taken(history, side)
    ensures Given(history + [Ends(FRESH, FRESH)], side) == Given(history, side)
  {
    assert (history + [Ends(FRESH, FRESH)])[..|history|] == history;
    assert Payloads(FRESH.accepted) == [] && Payloads(FRESH.offered) == [];
  }

  lemma OpenLogs(sys: System, me: Side, ev: Events)
    requires ev.Valid() && LogInv(sys, Left) && LogInv(sys, Right)
    requires Opens(sys.Radio(me), Update(sys.Radio(me), ev))
    ensures LogInv(AfterPass(sys, me, ev), Left) && LogInv(AfterPass(sys, me, ev), Right)
  {
    OpenedLogs(sys.history, Left);
    OpenedLogs(sys.history, Right);
    var r, r' := sys.Radio(me), Update(sys.Radio(me), ev);
    assert r'.host == r.host && r'.drawn == r.drawn;
  }

  lemma MoveLogs(sys: System, me: Side, move: Move)
    requires Inv(sys) && Possible(sys, me, move) && LogInv(sys, Left) && LogInv(sys, Right)
    ensures LogInv(Do(sys, me, move), Left) && LogInv(Do(sys, me, move), Right)
  {
    var sys' := Do(sys, me, move);
    if move.Pass? {
      var ev := move.ev;
      if Acts(sys, me, ev) { InvReady(sys, me); ActedPassLogs(sys, me, ev); }
      else if Opens(sys.Radio(me), Update(sys.Radio(me), ev)) { OpenLogs(sys, me, ev); }
      else {
        assert SideInv(sys, me);
        QuietPassShape(sys.Radio(me), ev);
        assert LogInv(sys', me) && LogInv(sys', Other(me));
      }
    } else {
      assert LogInv(sys', me) && LogInv(sys', Other(me));
    }
  }

  // ---------------------------------------------------------------------
  // Theorems over whole runs
  // ---------------------------------------------------------------------

  datatype Event = Event(me: Side, move: Move)

  function Next(sys: System, e: Event): Option<System> {
    if Possible(sys, e.me, e.move) then Some(Do(sys, e.me, e.move)) else None
  }

  predicate Good(sys: System) {
    Inv(sys) && LogInv(sys, Left) && LogInv(sys, Right)
  }

  lemma RunGood(sys: System, events: seq<Event>, sys': System)
    requires Good(sys) && Runs.Leads(Next, sys, events, sys')
    ensures Good(sys')
  {
    forall s, e | Good(s) && Next(s, e).Some? ensures Good(Next(s, e).value) {
      MoveInv(s, e.me, e.move);
      MoveLogs(s, e.me, e.move);
    }
    Runs.Preserved(Next, s => Good(s), sys, events, sys');
  }

  /**
   Whenever both radios report the link up, both zeroed their counters in the
   same ZERO_ACKS exchange, which is the newest there has been.
   */
  lemma LinkAgreement(events: seq<Event>, sys: System)
    requires Runs.Leads(Next, INITIAL, events, sys)
    requires IsUp(sys.left.radio.state) && IsUp(sys.right.radio.state)
    ensures sys.left.session == sys.right.session == |sys.history| - 1
    ensures sys.left.radio.regs == sys.history[|sys.history| - 1].left.regs
    ensures sys.right.radio.regs == sys.history[|sys.history| - 1].right.regs
  {
    InitialInv();
    RunGood(INITIAL, events, sys);
    assert SideInv(sys, Left) && SideInv(sys, Right);
  }

  /** What the histories of a session and the buffers say about its deliveries. */
  predicate OrderedDelivery(sys: System, me: Side, k: nat)
    requires k < |sys.history|
  {
    var snd, got := sys.history[k].At(me), sys.history[k].At(Other(me)).accepted;
    && |got| <= |snd.offered| <= |got| + 1
    && forall n :: 0 <= n < |got| ==> got[n] == snd.offered[n] || (got[n] == Heartbeat && n in snd.replaced)
  }

  lemma GoodDelivery(sys: System, me: Side, k: nat)
    requires Good(sys) && k < |sys.history|
    ensures OrderedDelivery(sys, me, k)
    ensures sys.Radio(me).drawn == Given(sys.history, me) && sys.Radio(Other(me)).host == Taken(sys.history, Other(me))
  {
    assert LogInv(sys, me) && LogInv(sys, Other(me));
    InOrder(Session(sys.history[k].left, sys.history[k].right, [], []), me);
  }

  /**
   In every run, in every session, the receiver took each number at most once
   and in order; the host's buffer holds exactly the messages so taken.
   */
  lemma AtMostOnceDelivery(events: seq<Event>, sys: System, me: Side, k: nat)
    requires Runs.Leads(Next, INITIAL, events, sys) && k < |sys.history|
    ensures sys.Radio(me).drawn == Given(sys.history, me)
    ensures sys.Radio(Other(me)).host == Taken(sys.history, Other(me))
    ensures OrderedDelivery(sys, me, k)
  {
    InitialInv();
    RunGood(INITIAL, events, sys);
    GoodDelivery(sys, me, k);
  }

  /** The pass starts a HEARTBEAT while the ACK timer runs for another message. */
  predicate Overwrites(sys: System, me: Side, move: Move) {
    move.Pass? && ActionOf(sys.Radio(me), move.ev) == Some(SendHeartbeat) && HoldsMessage(sys.Radio(me).regs)
  }

  /** Moves that overwrite no message. */
  function PoliteNext(sys: System, e: Event): Option<System> {
    if Overwrites(sys, e.me, e.move) then None else Next(sys, e)
  }

  predicate Unreplaced(sys: System) {
    forall k :: 0 <= k < |sys.history| ==> sys.history[k].left.replaced == {} && sys.history[k].right.replaced == {}
  }

  lemma ActedUnreplaced(sys: System, me: Side, r': Radio, airTag: Tag, e': Endpoint)
    requires sys.history != [] && Unreplaced(sys) && e'.replaced == {}
    ensures Unreplaced(ActedSystem(sys, me, r', airTag, e'))
  {
  }

  lemma PoliteActUnreplaced(sys: System, me: Side, ev: Events)
    requires Ready(sys, me) && SessionInv(sys) && Acts(sys, me, ev) && Unreplaced(sys)
    requires !Overwrites(sys, me, Pass(ev))
    ensures Unreplaced(AfterPass(sys, me, ev))
  {
    PassSimulates(sys, me, ev);
    StepReplaces(Current(sys), me, ActionOf(sys.Radio(me), ev).value, ev.sent);
    var sys', e := AfterPass(sys, me, ev), Current(sys).End(me);
    assert e.replaced == {} && Current(sys').End(me).replaced == {};
    ActedUnreplaced(sys, me, Update(sys.Radio(me), ev), sys'.At(me).airTag, Current(sys').End(me));
  }

  /** Any other move leaves the histories alone or opens a fresh session. */
  lemma OtherMoveHistory(sys: System, me: Side, move: Move)
    requires Possible(sys, me, move) && !(move.Pass? && Acts(sys, me, move.ev))
    ensures Do(sys, me, move).history == sys.history || Do(sys, me, move).history == sys.history + [Ends(FRESH, FRESH)]
  {
  }

  lemma PoliteMoveUnreplaced(sys: System, me: Side, move: Move)
    requires Inv(sys) && Possible(sys, me, move) && !Overwrites(sys, me, move) && Unreplaced(sys)
    ensures Unreplaced(Do(sys, me, move))
  {
    if move.Pass? && Acts(sys, me, move.ev) {
      InvReady(sys, me);
      PoliteActUnreplaced(sys, me, move.ev);
    } else {
      OtherMoveHistory(sys, me, move);
    }
  }

  lemma PoliteRun(sys: System, events: seq<Event>, sys': System)
    requires Good(sys) && Unreplaced(sys) && Runs.Leads(PoliteNext, sys, events, sys')
    ensures Good(sys') && Unreplaced(sys')
  {
    var inv := s => Good(s) && Unreplaced(s);
    forall s, e | inv(s) && PoliteNext(s, e).Some? ensures inv(PoliteNext(s, e).value) {
      MoveInv(s, e.me, e.move);
      MoveLogs(s, e.me, e.move);
      PoliteMoveUnreplaced(s, e.me, e.move);
    }
    Runs.Preserved(PoliteNext, inv, sys, events, sys');
  }

  /** The payloads delivered in session k are a prefix of those sent in it, missing at most the last. */
  predicate ReliableSession(sys: System, me: Side, k: nat)
    requires k < |sys.history|
  {
    var sent, got := Payloads(sys.history[k].At(me).offered), Payloads(sys.history[k].At(Other(me)).accepted);
    got <= sent && |sent| <= |got| + 1
  }

  lemma UnreplacedIsReliable(sys: System, me: Side, k: nat)
    requires k < |sys.history| && OrderedDelivery(sys, me, k) && Unreplaced(sys)
    ensures ReliableSession(sys, me, k)
  {
    var sent, got := sys.history[k].At(me).offered, sys.history[k].At(Other(me)).accepted;
    assert sys.history[k].At(me).replaced == {};
    assert got == sent[..|got|];
    if |sent| == |got| + 1 {
      assert sent == got + [sent[|got|]];
      PayloadsSnoc(got, sent[|got|]);
    } else {
      assert sent == got;
    }
  }

  /**
   Reliable stream.  Through loss, refused transmits, back pressure, handshake
   timeouts, link resets and reboots, and as long as no HEARTBEAT overwrites an
   unacknowledged message: everything drawn from the sender's buffers and
   everything handed to the receiver's host splits into sessions, and in each
   session the receiver got a prefix of what was sent, missing at most the last
   message.
   */
  lemma ReliableDelivery(events: seq<Event>, sys: System, me: Side, k: nat)
    requires Runs.Leads(PoliteNext, INITIAL, events, sys) && k < |sys.history|
    ensures sys.Radio(me).drawn == Given(sys.history, me)
    ensures sys.Radio(Other(me)).host == Taken(sys.history, Other(me))
    ensures ReliableSession(sys, me, k)
  {
    InitialInv();
    PoliteRun(INITIAL, events, sys);
    GoodDelivery(sys, me, k);
    UnreplacedIsReliable(sys, me, k);
  }

  // ---------------------------------------------------------------------
  // Histories only grow
  // ---------------------------------------------------------------------

  /** Session k of `sys` goes on in `sys'`: what was accepted in it stays. */
  predicate Grown(sys: System, sys': System, side: Side, k: nat)
    requires k < |sys.history|
  {
    k < |sys'.history| && sys.history[k].At(side).accepted <= sys'.history[k].At(side).accepted
  }

  lemma ActedGrows(sys: System, me: Side, r': Radio, airTag: Tag, e': Endpoint, side: Side, k: nat)
    requires k < |sys.history| && sys.history[|sys.history| - 1].At(me).accepted <= e'.accepted
    ensures Grown(sys, ActedSystem(sys, me, r', airTag, e'), side, k)
  {
  }

  lemma ActedPassGrows(sys: System, me: Side, ev: Events, side: Side, k: nat)
    requires Ready(sys, me) && Acts(sys, me, ev) && k < |sys.history|
    ensures Grown(sys, AfterPass(sys, me, ev), side, k)
  {
    var r', s' := Update(sys.Radio(me), ev), Stepped(sys, me, ev);
    ActedPass(sys, me, ev);
    Arq.StepGrows(Current(sys), Arq.Event(me, ActionOf(sys.Radio(me), ev).value, ev.sent), me);
    ActedGrows(sys, me, r', if r'.air.Some? then TagFor(r'.air, s'.End(me), |sys.history| - 1) else sys.At(me).airTag,
               s'.End(me), side, k);
  }

  lemma MoveGrows(sys: System, me: Side, move: Move, side: Side, k: nat)
    requires Inv(sys) && Possible(sys, me, move) && k < |sys.history|
    ensures Grown(sys, Do(sys, me, move), side, k)
  {
    if move.Pass? && Acts(sys, me, move.ev) {
      InvReady(sys, me);
      ActedPassGrows(sys, me, move.ev, side, k);
    } else {
      OtherMoveHistory(sys, me, move);
    }
  }

  lemma RunGrows(sys: System, events: seq<Event>, sys': System, side: Side, k: nat)
    requires Inv(sys) && Runs.Leads(Next, sys, events, sys') && k < |sys.history|
    ensures Inv(sys') && Grown(sys, sys', side, k)
  {
    var inv := s => Inv(s) && Grown(sys, s, side, k);
    forall s, e | inv(s) && Next(s, e).Some? ensures inv(Next(s, e).value) {
      MoveInv(s, e.me, e.move);
      MoveGrows(s, e.me, e.move, side, k);
    }
    Runs.Preserved(Next, inv, sys, events, sys');
  }

  // ---------------------------------------------------------------------
  // What one move does to a radio that is up
  // ---------------------------------------------------------------------

  predicate IsOpen(sys: System, side: Side) {
    sys.history != [] && IsUp(sys.Radio(side).state)
  }

  function LastEnd(sys: System, side: Side): Endpoint
    requires sys.history != []
  {
    sys.history[|sys.history| - 1].At(side)
  }

  lemma UnactedHistory(sys: System, me: Side, ev: Events)
    requires ev.Valid() && !Acts(sys, me, ev) && !Opens(sys.Radio(me), Update(sys.Radio(me), ev))
    ensures AfterPass(sys, me, ev).history == sys.history
  {
  }

  lemma ActedEnds(sys: System, me: Side, r': Radio, airTag: Tag, e': Endpoint)
    requires sys.history != []
    ensures var sys' := ActedSystem(sys, me, r', airTag, e');
            && |sys'.history| == |sys.history| && sys'.Radio(me) == r'
            && LastEnd(sys', me) == e' && LastEnd(sys', Other(me)) == LastEnd(sys, Other(me))
  {
  }

  lemma HeadIsInbox(sys: System, me: Side)
    requires sys.history != [] && sys.Radio(me).inbox.Some? && sys.Radio(me).inbox.value.Numbered?
    ensures Current(sys).To(me) != [] && sys.Radio(me).inbox == Some(Numbered(Current(sys).To(me)[0].frame))
  {
  }

  lemma StepLogs(sys: System, me: Side, ev: Events)
    requires Ready(sys, me) && Acts(sys, me, ev)
    ensures Logs(sys.Radio(me), Update(sys.Radio(me), ev), LastEnd(sys, me), Stepped(sys, me, ev).End(me))
  {
    ActedEnabled(sys, me, ev);
    if sys.Radio(me).inbox.Some? {
      HeadIsInbox(sys, me);
      ReceiveLogs(Current(sys), me, sys.Radio(me), ev);
    } else {
      SendLogs(Current(sys), me, sys.Radio(me), ev);
    }
  }

  lemma ActedEffect(sys: System, me: Side, ev: Events)
    requires Ready(sys, me) && Acts(sys, me, ev)
    ensures var sys' := AfterPass(sys, me, ev);
            && |sys'.history| == |sys.history|
            && Logs(sys.Radio(me), sys'.Radio(me), LastEnd(sys, me), LastEnd(sys', me))
            && LastEnd(sys', Other(me)) == LastEnd(sys, Other(me))
  {
    ActedPass(sys, me, ev);
    StepLogs(sys, me, ev);
    ActedEnds(sys, me, Update(sys.Radio(me), ev), AfterPass(sys, me, ev).At(me).airTag, Stepped(sys, me, ev).End(me));
  }

  lemma CameUp(sys: System, me: Side)
    requires Sides(sys) && (Zeroing(sys, me) || sys.Radio(me).inbox == Some(ZeroAcks))
    ensures sys.history != [] && LastEnd(sys, me) == FRESH
  {
    assert HandshakeInv(sys, me) && HandshakeInv(sys, Other(me));
    if !Zeroing(sys, me) { assert Underway(sys, Other(me), ZeroAcks); }
  }

  lemma UpHasHistory(sys: System, me: Side)
    requires Sides(sys) && Joined(sys, me)
    ensures sys.history != [] && sys.At(me).session == |sys.history| - 1
  {
    assert RegistersInv(sys, me) && HandshakeInv(sys, me);
  }

  lemma UnchangedLogs(r: Radio, r': Radio, e: Endpoint)
    requires r'.host == r.host && r'.drawn == r.drawn
    ensures Logs(r, r', e, e)
  {
  }

  lemma QuietEffect(sys: System, me: Side, ev: Events)
    requires Sides(sys) && QuietPass(sys.Radio(me), ev) && IsUp(Update(sys.Radio(me), ev).state)
    ensures sys.history != []
    ensures var r, r' := sys.Radio(me), Update(sys.Radio(me), ev);
            && r'.host == r.host && r'.drawn == r.drawn
            && (!IsUp(r.state) ==> LastEnd(sys, me) == FRESH)
  {
    var r := sys.Radio(me);
    assert MediumInv(sys, me);
    QuietPassShape(r, ev);
    if IsUp(r.state) { UpHasHistory(sys, me); } else { CameUp(sys, me); }
  }

  /** What a move leaves of the radio that makes it, when that radio is up afterwards. */
  predicate UpStep(sys: System, sys': System, me: Side) {
    && sys'.history != []
    && if IsUp(sys.Radio(me).state) then
         && |sys'.history| == |sys.history|
         && Logs(sys.Radio(me), sys'.Radio(me), LastEnd(sys, me), LastEnd(sys', me))
       else LastEnd(sys', me) == FRESH
  }

  lemma PassEffect(sys: System, me: Side, ev: Events)
    requires Inv(sys) && ev.Valid() && IsUp(Update(sys.Radio(me), ev).state)
    ensures UpStep(sys, AfterPass(sys, me, ev), me)
  {
    if Acts(sys, me, ev) {
      InvReady(sys, me);
      ActedEffect(sys, me, ev);
    } else {
      UnactedHistory(sys, me, ev);
      QuietEffect(sys, me, ev);
      if IsUp(sys.Radio(me).state) { UnchangedLogs(sys.Radio(me), Update(sys.Radio(me), ev), LastEnd(sys, me)); }
    }
  }

  /** What the medium does for a radio that is up changes neither its state nor its end. */
  lemma MediumUpEffect(sys: System, me: Side, move: Move)
    requires Sides(sys) && Possible(sys, me, move) && !move.Pass? && IsUp(Do(sys, me, move).Radio(me).state)
    ensures UpStep(sys, Do(sys, me, move), me)
  {
    var sys' := Do(sys, me, move);
    assert sys'.history == sys.history && sys'.Radio(me).state == sys.Radio(me).state;
    UpHasHistory(sys, me);
    UnchangedLogs(sys.Radio(me), sys'.Radio(me), LastEnd(sys, me));
  }

  /** A radio that comes up begins a fresh end of the session; one that stays up logs what its end gains. */
  lemma UpEffect(sys: System, me: Side, move: Move)
    requires Inv(sys) && Possible(sys, me, move) && IsUp(Do(sys, me, move).Radio(me).state)
    ensures UpStep(sys, Do(sys, me, move), me)
  {
    if move.Pass? {
      PassEffect(sys, me, move.ev);
    } else {
      MediumUpEffect(sys, me, move);
    }
  }

  lemma PeerRadio(sys: System, me: Side, move: Move)
    requires Possible(sys, me, move)
    ensures var n, n' := sys.At(Other(me)), Do(sys, me, move).At(Other(me));
            && n'.session == n.session
            && n'.radio.state == n.radio.state && n'.radio.host == n.radio.host && n'.radio.drawn == n.radio.drawn
  {
  }

  /** While a radio is up the other one opens no session. */
  lemma PeerHistory(sys: System, me: Side, move: Move)
    requires Inv(sys) && Possible(sys, me, move) && IsUp(Do(sys, me, move).Radio(Other(me)).state)
    ensures sys.history != [] && |Do(sys, me, move).history| == |sys.history|
  {
    PeerRadio(sys, me, move);
    MoveInv(sys, me, move);
    UpHasHistory(sys, Other(me));
    UpHasHistory(Do(sys, me, move), Other(me));
  }

  /** While a radio is up, a move of the other one changes nothing of its end. */
  lemma PeerEffect(sys: System, me: Side, move: Move)
    requires Inv(sys) && Possible(sys, me, move) && IsUp(Do(sys, me, move).Radio(Other(me)).state)
    ensures sys.history != [] && |Do(sys, me, move).history| == |sys.history|
    ensures LastEnd(Do(sys, me, move), Other(me)) == LastEnd(sys, Other(me))
  {
    PeerHistory(sys, me, move);
    if move.Pass? && Acts(sys, me, move.ev) {
      InvReady(sys, me);
      ActedEffect(sys, me, move.ev);
    } else {
      OtherMoveHistory(sys, me, move);
      SameLast(sys, Do(sys, me, move), Other(me));
    }
  }

  lemma SameLast(sys: System, sys': System, side: Side)
    requires sys.history != [] && |sys'.history| == |sys.history|
    requires sys'.history == sys.history || sys'.history == sys.history + [Ends(FRESH, FRESH)]
    ensures LastEnd(sys', side) == LastEnd(sys, side)
  {
  }
}
