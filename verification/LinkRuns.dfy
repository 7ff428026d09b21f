/** Runs of the two-radio system that show what can happen: everything works, or a HEARTBEAT loses a message. */
module LinkRuns {
  import opened Basics
  import opened P2pRadio
  import Arq
  import P2pSystem
  import Runs

  /** Nothing is due; transmissions start, and there is room for what arrives. */
  const IDLE := Events(1, true, true, false, false, false, false, true, false, None, None, Arq.Space(false, 4096, 100), false)

  ghost predicate Reachable(sys: P2pSystem.System) {
    Runs.Reaches(P2pSystem.Next, P2pSystem.INITIAL, sys)
  }

  // ---------------------------------------------------------------------
  // Everything works
  // ---------------------------------------------------------------------

  function Quiet(state: State, regs: Arq.Registers, host: seq<Arq.Message>, drawn: seq<Arq.Message>): Radio {
    Radio(state, regs, None, None, host, drawn)
  }

  lemma Step(sys: P2pSystem.System, me: Side, move: P2pSystem.Move) returns (sys': P2pSystem.System)
    requires Reachable(sys) && P2pSystem.Possible(sys, me, move)
    ensures Reachable(sys') && sys' == P2pSystem.Do(sys, me, move)
  {
    Runs.ReachesOn(P2pSystem.Next, P2pSystem.INITIAL, sys, P2pSystem.Event(me, move));
    sys' := P2pSystem.Do(sys, me, move);
  }

  lemma OnePass(sys: P2pSystem.System, me: Side, ev: Events) returns (sys': P2pSystem.System)
    requires Reachable(sys) && ev.Valid()
    ensures Reachable(sys') && sys'.history == P2pSystem.HistoryAfter(sys, me, ev)
    ensures sys'.Radio(me) == Update(sys.Radio(me), ev) && sys'.Radio(Other(me)) == sys.Radio(Other(me))
  {
    sys' := Step(sys, me, P2pSystem.Pass(ev));
  }

  /** A pass puts `d` on air, it is heard or not, and the sender notices the end of its transmission. */
  lemma Sent(sys: P2pSystem.System, me: Side, ev: Events, d: Datagram, heard: bool) returns (sys': P2pSystem.System)
    requires Reachable(sys) && ev.Valid()
    requires Update(sys.Radio(me), ev).air == Some(d) && Transmitting(Update(sys.Radio(me), ev).state)
    requires Listening(sys.Radio(Other(me)).state)
    ensures Reachable(sys') && sys'.history == P2pSystem.HistoryAfter(sys, me, ev)
    ensures sys'.Radio(me) == Update(Update(sys.Radio(me), ev).(air := None), IDLE)
    ensures sys'.Radio(Other(me)) == if heard then sys.Radio(Other(me)).(inbox := Some(d)) else sys.Radio(Other(me))
  {
    var onAir := OnePass(sys, me, ev);
    var ended := Step(onAir, me, P2pSystem.AirDone(heard));
    sys' := OnePass(ended, me, IDLE);
    P2pSystem.UnactedHistory(ended, me, IDLE);
  }

  lemma PoweredOn() returns (sys: P2pSystem.System)
    ensures Reachable(sys) && sys.history == []
    ensures sys.left.radio == sys.right.radio == Quiet(LinkDown, Arq.ZERO_REGISTERS, [], [])
  {
    Runs.ReachesHere(P2pSystem.Next, P2pSystem.INITIAL);
    var s := OnePass(P2pSystem.INITIAL, Left, IDLE);
    sys := OnePass(s, Right, IDLE);
  }

  /** A radio without history in `state`, with `d` received. */
  function Hearing(state: State, d: Option<Datagram>): Radio {
    Quiet(state, Arq.ZERO_REGISTERS, [], []).(inbox := d)
  }

  /** A pass of `r` transmits `d`, and after the transmission it is in `next`. */
  predicate Sends(r: Radio, ev: Events, d: Datagram, next: Radio) {
    var r' := Update(r, ev);
    ev.Valid() && r'.air == Some(d) && Transmitting(r'.state) && Update(r'.(air := None), IDLE) == next
  }

  lemma Handshake()
    ensures Sends(Hearing(LinkDown, None), IDLE.(findPartnerDue := true), FindPartner, Hearing(WaitSyncClocks, None))
    ensures Sends(Hearing(LinkDown, Some(FindPartner)), IDLE, SyncClocks, Hearing(WaitZeroAcks, None))
    ensures Sends(Hearing(WaitSyncClocks, Some(SyncClocks)), IDLE, ZeroAcks, Hearing(LinkUp, None))
    ensures Update(Hearing(WaitZeroAcks, Some(ZeroAcks)), IDLE) == Hearing(LinkUp, None)
  {
  }

  /** FIND_PARTNER, SYNC_CLOCKS and ZERO_ACKS, each heard, bring both radios from power-up to LINK_UP. */
  lemma LinkComesUp() returns (sys: P2pSystem.System)
    ensures Reachable(sys) && sys.history == [P2pSystem.Ends(Arq.FRESH, Arq.FRESH)]
    ensures sys.left.radio == sys.right.radio == Quiet(LinkUp, Arq.ZERO_REGISTERS, [], [])
  {
    Handshake();
    var s := PoweredOn();
    s := Sent(s, Left, IDLE.(findPartnerDue := true), FindPartner, true);
    s := Sent(s, Right, IDLE, SyncClocks, true);
    assert s.history == [];
    s := Sent(s, Left, IDLE, ZeroAcks, true);
    assert s.history == [P2pSystem.Ends(Arq.FRESH, Arq.FRESH)];
    sys := OnePass(s, Right, IDLE);
  }

  function Waiting(bytes: seq<byte>): Radio {
    Quiet(LinkUp, Arq.Registers(0, 0, 0, Some(Arq.MessageFrame(0, Arq.Data(bytes)))), [], [Arq.Data(bytes)])
  }

  lemma SenderSide(bytes: seq<byte>)
    ensures Sends(Hearing(LinkUp, None), IDLE.(data := Some(bytes)), Numbered(Arq.MessageFrame(0, Arq.Data(bytes))), Waiting(bytes))
    ensures Update(Waiting(bytes).(inbox := Some(Numbered(Arq.AckFrame(0)))), IDLE)
            == Quiet(LinkUp, Arq.Registers(1, 0, 0, None), [], [Arq.Data(bytes)])
  {
  }

  lemma ReceiverSide(bytes: seq<byte>)
    requires |bytes| <= 255
    ensures Sends(Hearing(LinkUp, Some(Numbered(Arq.MessageFrame(0, Arq.Data(bytes))))), IDLE, Numbered(Arq.AckFrame(0)),
                  Quiet(LinkUp, Arq.Registers(0, 1, 0, None), [Arq.Data(bytes)], []))
  {
  }

  /** From there any bytes get through and are acknowledged. */
  lemma DataGetsThrough(bytes: seq<byte>) returns (sys: P2pSystem.System)
    requires |bytes| <= 255
    ensures Reachable(sys)
    ensures sys.left.radio == Quiet(LinkUp, Arq.Registers(1, 0, 0, None), [], [Arq.Data(bytes)])
    ensures sys.right.radio == Quiet(LinkUp, Arq.Registers(0, 1, 0, None), [Arq.Data(bytes)], [])
  {
    SenderSide(bytes);
    ReceiverSide(bytes);
    var s := LinkComesUp();
    s := Sent(s, Left, IDLE.(data := Some(bytes)), Numbered(Arq.MessageFrame(0, Arq.Data(bytes))), true);
    s := Sent(s, Right, IDLE, Numbered(Arq.AckFrame(0)), true);
    sys := OnePass(s, Left, IDLE);
  }

  // ---------------------------------------------------------------------
  // A HEARTBEAT loses a message
  // ---------------------------------------------------------------------

  const HEARTBEAT_DUE := IDLE.(heartbeatDue := true)

  /** In session k number n has reached `side` as `message`. */
  predicate Delivered(sys: P2pSystem.System, side: Side, k: nat, n: nat, message: Arq.Message) {
    && k < |sys.history| && n < |sys.history[k].At(side).accepted|
    && sys.history[k].At(side).accepted[n] == message
  }

  ghost predicate NeverDelivered(sys: P2pSystem.System, side: Side, k: nat, n: nat, message: Arq.Message) {
    forall events, later :: Runs.Leads(P2pSystem.Next, sys, events, later) ==> !Delivered(later, side, k, n, message)
  }

  lemma StaysDelivered(sys: P2pSystem.System, side: Side, k: nat, n: nat, message: Arq.Message,
                       events: seq<P2pSystem.Event>, later: P2pSystem.System)
    requires P2pSystem.Inv(sys) && Delivered(sys, side, k, n, message) && Runs.Leads(P2pSystem.Next, sys, events, later)
    ensures Delivered(later, side, k, n, message)
  {
    P2pSystem.RunGrows(sys, events, later, side, k);
  }

  /** Both radios are up, and `me` listens with a message unacknowledged. */
  predicate AboutToLose(sys: P2pSystem.System, me: Side) {
    && sys.history != [] && sys.Radio(me).state.LinkUp? && sys.Radio(me).inbox.None? && IsUp(sys.Radio(Other(me)).state)
    && Arq.HoldsMessage(sys.Radio(me).regs) && sys.Radio(me).regs.outstanding.value.MessageFrame?
  }

  /** A HEARTBEAT that `me` starts now can make its unacknowledged message undeliverable. */
  ghost predicate CanLose(sys: P2pSystem.System, me: Side)
    requires AboutToLose(sys, me)
  {
    exists events, later ::
      && Runs.Leads(P2pSystem.Next, P2pSystem.Do(sys, me, P2pSystem.Pass(HEARTBEAT_DUE)), events, later)
      && NeverDelivered(later, Other(me), |sys.history| - 1, P2pSystem.LastEnd(sys, me).acked,
                        sys.Radio(me).regs.outstanding.value.message)
  }

  lemma StepFrom(start: P2pSystem.System, sys: P2pSystem.System, me: Side, move: P2pSystem.Move) returns (sys': P2pSystem.System)
    requires Runs.Reaches(P2pSystem.Next, start, sys) && P2pSystem.Inv(sys) && P2pSystem.Possible(sys, me, move)
    ensures Runs.Reaches(P2pSystem.Next, start, sys') && P2pSystem.Inv(sys') && sys' == P2pSystem.Do(sys, me, move)
  {
    P2pSystem.MoveInv(sys, me, move);
    Runs.ReachesOn(P2pSystem.Next, start, sys, P2pSystem.Event(me, move));
    sys' := P2pSystem.Do(sys, me, move);
  }

  /** What a radio had on air is lost. */
  lemma Silenced(start: P2pSystem.System, sys: P2pSystem.System, side: Side) returns (sys': P2pSystem.System)
    requires Runs.Reaches(P2pSystem.Next, start, sys) && P2pSystem.Inv(sys)
    ensures Runs.Reaches(P2pSystem.Next, start, sys') && P2pSystem.Inv(sys')
    ensures sys'.history == sys.history && sys'.At(Other(side)) == sys.At(Other(side))
    ensures sys'.Radio(side) == sys.Radio(side).(air := None)
  {
    if sys.Radio(side).air.Some? {
      sys' := StepFrom(start, sys, side, P2pSystem.AirDone(false));
    } else {
      sys' := sys;
    }
  }

  /** The peer listens again, whatever it had on air. */
  lemma PeerListens(start: P2pSystem.System, sys: P2pSystem.System, me: Side) returns (sys': P2pSystem.System)
    requires Runs.Reaches(P2pSystem.Next, start, sys) && P2pSystem.Inv(sys) && IsUp(sys.Radio(Other(me)).state)
    ensures Runs.Reaches(P2pSystem.Next, start, sys') && P2pSystem.Inv(sys')
    ensures sys'.history == sys.history && sys'.At(me) == sys.At(me) && sys'.Radio(Other(me)).state.LinkUp?
  {
    if sys.Radio(Other(me)).state.LinkUp? {
      sys' := sys;
    } else {
      var silent := Silenced(start, sys, Other(me));
      sys' := Woken(start, silent, Other(me));
    }
  }

  lemma Woken(start: P2pSystem.System, sys: P2pSystem.System, side: Side) returns (sys': P2pSystem.System)
    requires Runs.Reaches(P2pSystem.Next, start, sys) && P2pSystem.Inv(sys)
    requires sys.Radio(side).state.LinkUpWaitTxDone? && sys.Radio(side).air.None?
    ensures Runs.Reaches(P2pSystem.Next, start, sys') && P2pSystem.Inv(sys')
    ensures sys'.history == sys.history && sys'.At(Other(side)) == sys.At(Other(side)) && sys'.Radio(side).state.LinkUp?
  {
    WakingPass(sys, side);
    sys' := StepFrom(start, sys, side, P2pSystem.Pass(IDLE));
  }

  lemma WakingPass(sys: P2pSystem.System, side: Side)
    requires sys.Radio(side).state.LinkUpWaitTxDone? && sys.Radio(side).air.None?
    ensures var sys' := P2pSystem.AfterPass(sys, side, IDLE);
            sys'.history == sys.history && sys'.At(Other(side)) == sys.At(Other(side)) && sys'.Radio(side).state.LinkUp?
  {
    P2pSystem.UnactedHistory(sys, side, IDLE);
  }

  /** The HEARTBEAT is on air, tagged with the number of the message it overwrites. */
  lemma HeartbeatStarts(sys: P2pSystem.System, me: Side) returns (sys': P2pSystem.System)
    requires P2pSystem.Inv(sys) && AboutToLose(sys, me)
    ensures sys' == P2pSystem.Do(sys, me, P2pSystem.Pass(HEARTBEAT_DUE)) && P2pSystem.Inv(sys')
    ensures |sys'.history| == |sys.history| && P2pSystem.LastEnd(sys', Other(me)) == P2pSystem.LastEnd(sys, Other(me))
    ensures sys'.Radio(Other(me)) == sys.Radio(Other(me))
    ensures sys'.Radio(me).air == Some(Numbered(Arq.MessageFrame(sys.Radio(me).regs.txAckNumber, Arq.Heartbeat)))
    ensures sys'.At(me).airTag.number == P2pSystem.LastEnd(sys, me).acked
  {
    sys' := P2pSystem.Do(sys, me, P2pSystem.Pass(HEARTBEAT_DUE));
    P2pSystem.MoveInv(sys, me, P2pSystem.Pass(HEARTBEAT_DUE));
    P2pSystem.InvReady(sys, me);
    HeartbeatPass(sys.Radio(me));
    P2pSystem.ActedEffect(sys, me, HEARTBEAT_DUE);
    HeartbeatTag(sys, me);
  }

  lemma HeartbeatPass(r: Radio)
    requires r.state.LinkUp? && r.inbox.None?
    ensures P2pSystem.ActionOf(r, HEARTBEAT_DUE) == Some(Arq.SendHeartbeat)
    ensures Update(r, HEARTBEAT_DUE).air == Some(Numbered(Arq.MessageFrame(r.regs.txAckNumber, Arq.Heartbeat)))
  {
  }

  lemma HeartbeatTag(sys: P2pSystem.System, me: Side)
    requires P2pSystem.Ready(sys, me) && sys.Radio(me).inbox.None?
    ensures P2pSystem.AfterPass(sys, me, HEARTBEAT_DUE).At(me).airTag.number == P2pSystem.LastEnd(sys, me).acked
  {
    HeartbeatPass(sys.Radio(me));
    P2pSystem.ActedPass(sys, me, HEARTBEAT_DUE);
    Arq.HeartbeatOnAir(P2pSystem.Current(sys), me);
  }

  /** It is heard by the listening peer. */
  lemma HeartbeatHeard(start: P2pSystem.System, sys: P2pSystem.System, me: Side, number: Number, n: nat)
    returns (sys': P2pSystem.System)
    requires Runs.Reaches(P2pSystem.Next, start, sys) && P2pSystem.Inv(sys) && sys.history != [] && sys.At(me).airTag.number == n
    requires sys.Radio(me).air == Some(Numbered(Arq.MessageFrame(number, Arq.Heartbeat)))
    requires sys.Radio(Other(me)).state.LinkUp?
    ensures Runs.Reaches(P2pSystem.Next, start, sys') && P2pSystem.Inv(sys') && sys'.history == sys.history
    ensures sys'.Radio(Other(me)).state.LinkUp?
    ensures sys'.Radio(Other(me)).inbox == Some(Numbered(Arq.MessageFrame(number, Arq.Heartbeat)))
    ensures P2pSystem.Current(sys').To(Other(me))
            == [Arq.Flight(Arq.MessageFrame(number, Arq.Heartbeat), n)]
  {
    sys' := StepFrom(start, sys, me, P2pSystem.AirDone(true));
  }

  /** And taken under the number the peer expects. */
  lemma HeartbeatRead(start: P2pSystem.System, sys: P2pSystem.System, me: Side, number: Number, k: nat, n: nat)
    returns (sys': P2pSystem.System)
    requires Runs.Reaches(P2pSystem.Next, start, sys) && P2pSystem.Inv(sys)
    requires |sys.history| == k + 1 && |P2pSystem.LastEnd(sys, Other(me)).accepted| == n
    requires sys.Radio(Other(me)).state.LinkUp?
    requires sys.Radio(Other(me)).inbox == Some(Numbered(Arq.MessageFrame(number, Arq.Heartbeat)))
    requires P2pSystem.Current(sys).To(Other(me))
             == [Arq.Flight(Arq.MessageFrame(number, Arq.Heartbeat), n)]
    ensures Runs.Reaches(P2pSystem.Next, start, sys') && P2pSystem.Inv(sys') && Delivered(sys', Other(me), k, n, Arq.Heartbeat)
  {
    ReadAndDelivered(sys, me, number, k, n);
    sys' := StepFrom(start, sys, Other(me), P2pSystem.Pass(IDLE));
  }

  lemma ReadAndDelivered(sys: P2pSystem.System, me: Side, number: Number, k: nat, n: nat)
    requires P2pSystem.Inv(sys) && |sys.history| == k + 1 && |P2pSystem.LastEnd(sys, Other(me)).accepted| == n
    requires sys.Radio(Other(me)).state.LinkUp?
    requires sys.Radio(Other(me)).inbox == Some(Numbered(Arq.MessageFrame(number, Arq.Heartbeat)))
    requires P2pSystem.Current(sys).To(Other(me)) == [Arq.Flight(Arq.MessageFrame(number, Arq.Heartbeat), n)]
    ensures Delivered(P2pSystem.AfterPass(sys, Other(me), IDLE), Other(me), k, n, Arq.Heartbeat)
  {
    P2pSystem.InvReady(sys, Other(me));
    ReadingPass(sys, Other(me));
    CurrentEnd(sys, Other(me));
    ReadDelivers(P2pSystem.Current(sys), me, number, n);
    InSession(P2pSystem.AfterPass(sys, Other(me), IDLE), Other(me), k, n);
  }

  lemma CurrentEnd(sys: P2pSystem.System, side: Side)
    requires P2pSystem.Inv(sys) && sys.history != []
    ensures P2pSystem.Current(sys).End(side) == P2pSystem.LastEnd(sys, side) && Arq.Inv(P2pSystem.Current(sys))
  {
  }

  lemma ReadDelivers(s: Arq.Session, me: Side, number: Number, n: nat)
    requires Arq.Inv(s) && |s.End(Other(me)).accepted| == n
    requires s.To(Other(me)) == [Arq.Flight(Arq.MessageFrame(number, Arq.Heartbeat), n)]
    ensures Arq.Delivered(Arq.Apply(s, Other(me), Arq.Receive(IDLE.space), IDLE.sent), Other(me), n, Arq.Heartbeat)
  {
    Arq.TakesHeartbeat(s, me, IDLE.space, IDLE.sent);
  }

  lemma InSession(sys: P2pSystem.System, side: Side, k: nat, n: nat)
    requires |sys.history| == k + 1 && Arq.Delivered(P2pSystem.Current(sys), side, n, Arq.Heartbeat)
    ensures Delivered(sys, side, k, n, Arq.Heartbeat)
  {
  }

  lemma ReadingPass(sys: P2pSystem.System, side: Side)
    requires P2pSystem.Ready(sys, side) && sys.Radio(side).inbox.Some? && sys.Radio(side).inbox.value.Numbered?
    requires sys.Radio(side).state.LinkUp?
    ensures var sys' := P2pSystem.AfterPass(sys, side, IDLE);
            && |sys'.history| == |sys.history| && P2pSystem.Current(sys).To(side) != []
            && P2pSystem.Current(sys') == Arq.Apply(P2pSystem.Current(sys), side, Arq.Receive(IDLE.space), IDLE.sent)
  {
    P2pSystem.PassSimulates(sys, side, IDLE);
    P2pSystem.ActedEffect(sys, side, IDLE);
  }

  /** The peer listens again, hears the HEARTBEAT and takes it. */
  lemma HeartbeatGoesOn(start: P2pSystem.System, me: Side, number: Number, k: nat, n: nat) returns (later: P2pSystem.System)
    requires P2pSystem.Inv(start) && |start.history| == k + 1 && IsUp(start.Radio(Other(me)).state)
    requires start.Radio(me).air == Some(Numbered(Arq.MessageFrame(number, Arq.Heartbeat)))
    requires start.At(me).airTag.number == n == |P2pSystem.LastEnd(start, Other(me)).accepted|
    ensures Runs.Reaches(P2pSystem.Next, start, later) && P2pSystem.Inv(later)
    ensures Delivered(later, Other(me), k, n, Arq.Heartbeat)
  {
    Runs.ReachesHere(P2pSystem.Next, start);
    var s := PeerListens(start, start, me);
    SameHistory(start, s, Other(me));
    var t := HeartbeatHeard(start, s, me, number, n);
    SameHistory(s, t, Other(me));
    later := HeartbeatRead(start, t, me, number, k, n);
  }

  lemma SameHistory(sys: P2pSystem.System, sys': P2pSystem.System, side: Side)
    requires sys'.history == sys.history != []
    ensures P2pSystem.LastEnd(sys', side) == P2pSystem.LastEnd(sys, side)
  {
  }

  lemma HeartbeatTaken(sys: P2pSystem.System, me: Side) returns (later: P2pSystem.System)
    requires P2pSystem.Inv(sys) && AboutToLose(sys, me)
    requires |P2pSystem.LastEnd(sys, Other(me)).accepted| == P2pSystem.LastEnd(sys, me).acked
    ensures Runs.Reaches(P2pSystem.Next, P2pSystem.Do(sys, me, P2pSystem.Pass(HEARTBEAT_DUE)), later) && P2pSystem.Inv(later)
    ensures Delivered(later, Other(me), |sys.history| - 1, P2pSystem.LastEnd(sys, me).acked, Arq.Heartbeat)
  {
    var start := HeartbeatStarts(sys, me);
    later := HeartbeatGoesOn(start, me, sys.Radio(me).regs.txAckNumber, |sys.history| - 1, P2pSystem.LastEnd(sys, me).acked);
  }

  lemma TakenStays(sys: P2pSystem.System, me: Side)
    requires P2pSystem.Inv(sys) && AboutToLose(sys, me)
    requires |P2pSystem.LastEnd(sys, Other(me)).accepted| > P2pSystem.LastEnd(sys, me).acked
    ensures Delivered(sys, Other(me), |sys.history| - 1, P2pSystem.LastEnd(sys, me).acked, sys.Radio(me).regs.outstanding.value.message)
  {
    P2pSystem.InvReady(sys, me);
    Arq.TakenIsOutstanding(P2pSystem.Current(sys), me);
  }

  /**
   In every reachable state of two radios that are up, a HEARTBEAT started over an
   unacknowledged message can lose that message if and only if the peer has not
   taken it yet.
   */
  lemma HeartbeatLosesExactly(before: seq<P2pSystem.Event>, sys: P2pSystem.System, me: Side)
    requires Runs.Leads(P2pSystem.Next, P2pSystem.INITIAL, before, sys) && AboutToLose(sys, me)
    ensures CanLose(sys, me)
            <==> |P2pSystem.LastEnd(sys, Other(me)).accepted| == P2pSystem.LastEnd(sys, me).acked
  {
    P2pSystem.InitialInv();
    P2pSystem.RunGood(P2pSystem.INITIAL, before, sys);
    P2pSystem.InvReady(sys, me);
    assert Arq.Toward(P2pSystem.Current(sys), Other(me));
    if |P2pSystem.LastEnd(sys, Other(me)).accepted| == P2pSystem.LastEnd(sys, me).acked {
      LosesUntaken(sys, me);
    } else {
      KeepsTaken(sys, me);
    }
  }

  lemma LosesUntaken(sys: P2pSystem.System, me: Side)
    requires P2pSystem.Inv(sys) && AboutToLose(sys, me)
    requires |P2pSystem.LastEnd(sys, Other(me)).accepted| == P2pSystem.LastEnd(sys, me).acked
    ensures CanLose(sys, me)
  {
    var later := HeartbeatTaken(sys, me);
    LostForGood(later, Other(me), |sys.history| - 1, P2pSystem.LastEnd(sys, me).acked,
                sys.Radio(me).regs.outstanding.value.message);
    LossIsPossible(sys, me, later);
  }

  lemma LossIsPossible(sys: P2pSystem.System, me: Side, later: P2pSystem.System)
    requires AboutToLose(sys, me)
    requires Runs.Reaches(P2pSystem.Next, P2pSystem.Do(sys, me, P2pSystem.Pass(HEARTBEAT_DUE)), later)
    requires NeverDelivered(later, Other(me), |sys.history| - 1, P2pSystem.LastEnd(sys, me).acked,
                            sys.Radio(me).regs.outstanding.value.message)
    ensures CanLose(sys, me)
  {
    var events :| Runs.Leads(P2pSystem.Next, P2pSystem.Do(sys, me, P2pSystem.Pass(HEARTBEAT_DUE)), events, later);
  }

  lemma KeepsTaken(sys: P2pSystem.System, me: Side)
    requires P2pSystem.Inv(sys) && AboutToLose(sys, me)
    requires |P2pSystem.LastEnd(sys, Other(me)).accepted| > P2pSystem.LastEnd(sys, me).acked
    ensures !CanLose(sys, me)
  {
    var you, k, n := Other(me), |sys.history| - 1, P2pSystem.LastEnd(sys, me).acked;
    var start, message := P2pSystem.Do(sys, me, P2pSystem.Pass(HEARTBEAT_DUE)), sys.Radio(me).regs.outstanding.value.message;
    TakenStays(sys, me);
    P2pSystem.MoveInv(sys, me, P2pSystem.Pass(HEARTBEAT_DUE));
    P2pSystem.MoveGrows(sys, me, P2pSystem.Pass(HEARTBEAT_DUE), you, k);
    forall events, later | Runs.Leads(P2pSystem.Next, start, events, later)
      ensures !NeverDelivered(later, you, k, n, message)
    {
      StaysDelivered(start, you, k, n, message, events, later);
      assert Runs.Leads(P2pSystem.Next, later, [], later);
    }
  }

  lemma LostForGood(later: P2pSystem.System, side: Side, k: nat, n: nat, message: Arq.Message)
    requires P2pSystem.Inv(later) && Delivered(later, side, k, n, Arq.Heartbeat) && message != Arq.Heartbeat
    ensures NeverDelivered(later, side, k, n, message)
  {
    forall events, last | Runs.Leads(P2pSystem.Next, later, events, last) ensures !Delivered(last, side, k, n, message) {
      StaysDelivered(later, side, k, n, Arq.Heartbeat, events, last);
    }
  }

  /** Such a state is reached from power-up when the first transmission of some DATA is not heard. */
  lemma HeartbeatLosesData(bytes: seq<byte>) returns (sys: P2pSystem.System)
    ensures Reachable(sys) && AboutToLose(sys, Left)
    ensures sys.left.radio.drawn == [Arq.Data(bytes)] && sys.right.radio.host == []
    ensures sys.left.radio.regs.outstanding == Some(Arq.MessageFrame(0, Arq.Data(bytes)))
    ensures CanLose(sys, Left)
  {
    SenderSide(bytes);
    var s := LinkComesUp();
    sys := Sent(s, Left, IDLE.(data := Some(bytes)), Numbered(Arq.MessageFrame(0, Arq.Data(bytes))), false);
    var before :| Runs.Leads(P2pSystem.Next, P2pSystem.INITIAL, before, sys);
    FirstEnds(s, bytes);
    HeartbeatLosesExactly(before, sys, Left);
  }

  lemma FirstEnds(sys: P2pSystem.System, bytes: seq<byte>)
    requires sys.history == [P2pSystem.Ends(Arq.FRESH, Arq.FRESH)] && sys.left.radio == Hearing(LinkUp, None)
    ensures var history := P2pSystem.HistoryAfter(sys, Left, IDLE.(data := Some(bytes)));
            |history| == 1 && history[0].right.accepted == [] && history[0].left.acked == 0
  {
  }
}
