/**
 Data over one virtual circuit, in one direction, from the moment both ends have
 zeroed its numbers.  A radio gives a message up without breaking the circuit when
 its ACK timer is stopped for another reason (see VcRuns), and the next message
 then goes out under the same number.
 */
module VcDelivery {
  import opened Basics
  import opened VcCircuits
  import VcRadio
  import Runs

  /** A message at its first transmission, with the unbounded number it went out under. */
  datatype Offer = Offer(number: nat, message: seq<byte>)

  /** `saved` is the number in the saved frame while the ACK timer runs for it; `acked` counts the acknowledged numbers. */
  datatype Sender = Sender(circuit: Circuit, saved: Option<Number>, acked: nat, sent: seq<Offer>)

  /** `taken[n]` tells which of the messages was taken under number n. */
  datatype Receiver = Receiver(circuit: Circuit, taken: seq<nat>)

  /** Frames on their way: the two bits they carry, the number these stand for, and for data the message. */
  datatype Copy = Copy(bits: Number, number: nat, index: nat)
  datatype Ack = Ack(bits: Number, number: nat)

  datatype Channel = Channel(sender: Sender, receiver: Receiver, copies: seq<Copy>, acks: seq<Ack>)

  /** `started` says whether a transmission started. */
  datatype Move =
    | Send(message: seq<byte>, started: bool)
    | Resend(started: bool)
    | GiveUp
    | ReadCopy(room: bool, started: bool)
    | ReadAck
    | LoseCopy(k: nat)
    | LoseAck(k: nat)

  const ZEROED := VcRadio.DOWN.(vcState := Connected)
  const OPENED := Channel(Sender(ZEROED, None, 0, []), Receiver(ZEROED, []), [], [])

  predicate Possible(c: Channel, move: Move) {
    match move
    case Send(_, _) => c.sender.saved.None?
    case Resend(_) => c.sender.saved.Some? && c.sender.sent != []
    case GiveUp => true
    case ReadCopy(_, _) => c.copies != []
    case ReadAck => c.acks != []
    case LoseCopy(k) => k < |c.copies|
    case LoseAck(k) => k < |c.acks|
  }

  function Offered(s: Sender, message: seq<byte>): Sender {
    s.(saved := Some(s.circuit.txAckNumber), sent := s.sent + [Offer(s.acked, message)])
  }

  /** The saved frame goes on air, unless the transmission is refused. */
  function Aired(c: Channel, started: bool): Channel
    requires c.sender.saved.Some? && c.sender.sent != []
  {
    if started then c.(copies := c.copies + [Copy(c.sender.saved.value, c.sender.acked, |c.sender.sent| - 1)]) else c
  }

  function Taken(r: Receiver, f: Copy): Receiver {
    Receiver(VcRadio.Numbered(r.circuit, VcRadio.DataFrame(0, f.bits, false)), r.taken + [f.index])
  }

  function Answered(c: Channel, started: bool): Channel {
    var number := if c.receiver.taken == [] then 0 else |c.receiver.taken| - 1;
    if started then c.(acks := c.acks + [Ack(c.receiver.circuit.rxAckNumber, number)]) else c
  }

  /** The receiver's test of the number, and of the room. */
  function CopyRead(c: Channel, room: bool, started: bool): Channel
    requires c.copies != []
  {
    var f, rest := c.copies[0], c.(copies := c.copies[1..]);
    if f.bits == c.receiver.circuit.rmtTxAckNumber then
      if room then Answered(rest.(receiver := Taken(c.receiver, f)), started) else rest
    else if f.bits == Pred4(c.receiver.circuit.rmtTxAckNumber) then Answered(rest, started)
    else rest
  }

  function Acknowledged(s: Sender): Sender {
    s.(circuit := VcRadio.Numbered(s.circuit, VcRadio.DataAck(0, s.circuit.txAckNumber)), saved := None, acked := s.acked + 1)
  }

  function AckRead(c: Channel): Channel
    requires c.acks != []
  {
    var rest := c.(acks := c.acks[1..]);
    if c.acks[0].bits == c.sender.circuit.txAckNumber then rest.(sender := Acknowledged(c.sender)) else rest
  }

  function Dropped<T>(q: seq<T>, k: nat): seq<T>
    requires k < |q|
  {
    q[..k] + q[k + 1..]
  }

  function Do(c: Channel, move: Move): Channel
    requires Possible(c, move)
  {
    match move
    case Send(message, started) => Aired(c.(sender := Offered(c.sender, message)), started)
    case Resend(started) => Aired(c, started)
    case GiveUp => c.(sender := c.sender.(saved := None))
    case ReadCopy(room, started) => CopyRead(c, room, started)
    case ReadAck => AckRead(c)
    case LoseCopy(k) => c.(copies := Dropped(c.copies, k))
    case LoseAck(k) => c.(acks := Dropped(c.acks, k))
  }

  function Next(c: Channel, move: Move): Option<Channel> {
    if Possible(c, move) then Some(Do(c, move)) else None
  }

  // ---------------------------------------------------------------------
  // Invariant
  // ---------------------------------------------------------------------

  /** A message has gone out under the next number. */
  predicate Used(s: Sender) {
    s.sent != [] && s.sent[|s.sent| - 1].number == s.acked
  }

  predicate SenderInv(s: Sender) {
    && s.circuit.txAckNumber == s.acked % 4
    && (s.saved.Some? ==> s.saved.value == s.acked % 4 && Used(s))
    && (forall i :: 0 <= i < |s.sent| ==> s.sent[i].number <= s.acked)
    && (forall i, j :: 0 <= i < j < |s.sent| ==> s.sent[i].number <= s.sent[j].number)
  }

  predicate ReceiverInv(r: Receiver, sent: seq<Offer>) {
    && r.circuit.rmtTxAckNumber == |r.taken| % 4
    && (r.taken != [] ==> r.circuit.rxAckNumber == (|r.taken| - 1) % 4)
    && (forall n :: 0 <= n < |r.taken| ==> r.taken[n] < |sent| && sent[r.taken[n]].number == n)
  }

  predicate CopyOk(c: Channel, f: Copy) {
    && f.bits == f.number % 4 && f.number <= c.sender.acked && |c.receiver.taken| <= f.number + 1
    && f.index < |c.sender.sent| && c.sender.sent[f.index].number == f.number
  }

  predicate AckOk(c: Channel, f: Ack) {
    f.bits == f.number % 4 && f.number < |c.receiver.taken| && c.sender.acked <= f.number + 1
  }

  predicate CopiesInv(c: Channel) {
    && (forall k :: 0 <= k < |c.copies| ==> CopyOk(c, c.copies[k]))
    && (forall j, k :: 0 <= j < k < |c.copies| ==> c.copies[j].number <= c.copies[k].number)
  }

  predicate AcksInv(c: Channel) {
    && (forall k :: 0 <= k < |c.acks| ==> AckOk(c, c.acks[k]))
    && (forall j, k :: 0 <= j < k < |c.acks| ==> c.acks[j].number <= c.acks[k].number)
  }

  predicate Inv(c: Channel) {
    && SenderInv(c.sender) && ReceiverInv(c.receiver, c.sender.sent)
    && c.sender.acked <= |c.receiver.taken| <= c.sender.acked + (if Used(c.sender) then 1 else 0)
    && CopiesInv(c) && AcksInv(c)
  }

  /** Two bits tell apart neighbours. */
  lemma Neighbours(n: nat, r: nat)
    requires n <= r <= n + 1
    ensures n % 4 == r % 4 <==> n == r
    ensures n % 4 == Pred4(r % 4) <==> n == r - 1
  {
  }

  lemma OfferedInv(c: Channel, message: seq<byte>)
    requires Inv(c) && c.sender.saved.None?
    ensures Inv(c.(sender := Offered(c.sender, message)))
  {
    var c' := c.(sender := Offered(c.sender, message));
    forall k | 0 <= k < |c.copies| ensures CopyOk(c', c'.copies[k]) { assert CopyOk(c, c.copies[k]); }
    forall k | 0 <= k < |c.acks| ensures AckOk(c', c'.acks[k]) { assert AckOk(c, c.acks[k]); }
  }

  lemma AiredInv(c: Channel, started: bool)
    requires Inv(c) && c.sender.saved.Some?
    ensures Inv(Aired(c, started))
  {
    var c' := Aired(c, started);
    forall k | 0 <= k < |c'.copies| ensures CopyOk(c', c'.copies[k]) {
      if k < |c.copies| { assert CopyOk(c, c.copies[k]); }
    }
    forall k | 0 <= k < |c.acks| ensures AckOk(c', c'.acks[k]) { assert AckOk(c, c.acks[k]); }
    forall k | 0 <= k < |c.copies| ensures c.copies[k].number <= c.sender.acked { assert CopyOk(c, c.copies[k]); }
  }

  /** With the head of the copies read, the others stay in order. */
  lemma RestInv(c: Channel)
    requires Inv(c) && c.copies != []
    ensures Inv(c.(copies := c.copies[1..]))
  {
    var c' := c.(copies := c.copies[1..]);
    forall k | 0 <= k < |c'.copies| ensures CopyOk(c', c'.copies[k]) { assert CopyOk(c, c.copies[k + 1]); }
    forall k | 0 <= k < |c.acks| ensures AckOk(c', c'.acks[k]) { assert AckOk(c, c.acks[k]); }
  }

  lemma AnsweredInv(c: Channel, started: bool)
    requires Inv(c) && c.receiver.taken != []
    ensures Inv(Answered(c, started))
  {
    var c' := Answered(c, started);
    forall k | 0 <= k < |c'.copies| ensures CopyOk(c', c'.copies[k]) { assert CopyOk(c, c.copies[k]); }
    forall k | 0 <= k < |c'.acks| ensures AckOk(c', c'.acks[k]) {
      if k < |c.acks| { assert AckOk(c, c.acks[k]); }
    }
    forall k | 0 <= k < |c.acks| ensures c.acks[k].number <= |c.receiver.taken| - 1 { assert AckOk(c, c.acks[k]); }
  }

  /** The number test is exact: it accepts the next number and calls the one before a duplicate. */
  lemma CopyIsExact(c: Channel)
    requires Inv(c) && c.copies != []
    ensures var f, r := c.copies[0], c.receiver;
            && |r.taken| - 1 <= f.number <= |r.taken|
            && (f.bits == r.circuit.rmtTxAckNumber <==> f.number == |r.taken|)
            && (f.bits == Pred4(r.circuit.rmtTxAckNumber) <==> f.number == |r.taken| - 1)
  {
    assert CopyOk(c, c.copies[0]);
    if c.copies[0].number < |c.receiver.taken| { Neighbours(c.copies[0].number, |c.receiver.taken|); }
  }

  lemma TakenNumbers(r: Receiver, sent: seq<Offer>, f: Copy)
    requires ReceiverInv(r, sent) && f.bits == f.number % 4 && f.number == |r.taken|
    requires f.index < |sent| && sent[f.index].number == f.number
    ensures ReceiverInv(Taken(r, f), sent)
  {
  }

  lemma TakenInv(c: Channel)
    requires Inv(c) && c.copies != [] && c.copies[0].number == |c.receiver.taken|
    ensures Inv(c.(copies := c.copies[1..], receiver := Taken(c.receiver, c.copies[0])))
  {
    var f := c.copies[0];
    var c' := c.(copies := c.copies[1..], receiver := Taken(c.receiver, f));
    assert CopyOk(c, f);
    LastIsLargest(c.sender, f.index);
    TakenNumbers(c.receiver, c.sender.sent, f);
    forall k | 0 <= k < |c'.copies| ensures CopyOk(c', c'.copies[k]) { assert CopyOk(c, c.copies[k + 1]); }
    forall k | 0 <= k < |c.acks| ensures AckOk(c', c'.acks[k]) { assert AckOk(c, c.acks[k]); }
  }

  lemma LastIsLargest(s: Sender, i: nat)
    requires SenderInv(s) && i < |s.sent|
    ensures s.sent[i].number <= s.sent[|s.sent| - 1].number <= s.acked
  {
  }

  lemma CopyReadInv(c: Channel, room: bool, started: bool)
    requires Inv(c) && c.copies != []
    ensures Inv(CopyRead(c, room, started))
  {
    CopyIsExact(c);
    RestInv(c);
    if c.copies[0].number == |c.receiver.taken| {
      TakenInv(c);
      AnsweredInv(c.(copies := c.copies[1..], receiver := Taken(c.receiver, c.copies[0])), started);
    } else if c.receiver.taken != [] {
      AnsweredInv(c.(copies := c.copies[1..]), started);
    }
  }

  /** The comparison of a DATA_ACK is exact: it passes for the newest number, which the receiver has taken. */
  lemma AckIsExact(c: Channel)
    requires Inv(c) && c.acks != []
    ensures c.acks[0].bits == c.sender.circuit.txAckNumber <==> c.acks[0].number == c.sender.acked
    ensures c.acks[0].number == c.sender.acked ==> |c.receiver.taken| == c.sender.acked + 1 && Used(c.sender)
  {
    assert AckOk(c, c.acks[0]);
    if c.acks[0].number < c.sender.acked { Neighbours(c.acks[0].number, c.sender.acked); }
  }

  lemma AckReadInv(c: Channel)
    requires Inv(c) && c.acks != []
    ensures Inv(AckRead(c))
  {
    AckIsExact(c);
    var c' := AckRead(c);
    forall k | 0 <= k < |c'.copies| ensures CopyOk(c', c'.copies[k]) { assert CopyOk(c, c.copies[k]); }
    forall k | 0 <= k < |c'.acks| ensures AckOk(c', c'.acks[k]) { assert AckOk(c, c.acks[k + 1]); }
  }

  lemma DroppedAt<T>(q: seq<T>, k: nat)
    requires k < |q|
    ensures forall j :: 0 <= j < |q| - 1 ==> Dropped(q, k)[j] == q[if j < k then j else j + 1]
  {
  }

  lemma LossInv(c: Channel, move: Move)
    requires Inv(c) && Possible(c, move) && (move.LoseCopy? || move.LoseAck?)
    ensures Inv(Do(c, move))
  {
    var c' := Do(c, move);
    if move.LoseCopy? { DroppedAt(c.copies, move.k); } else { DroppedAt(c.acks, move.k); }
    forall k | 0 <= k < |c'.copies| ensures CopyOk(c', c'.copies[k]) {
      assert CopyOk(c, c.copies[if move.LoseAck? || k < move.k then k else k + 1]);
    }
    forall k | 0 <= k < |c'.acks| ensures AckOk(c', c'.acks[k]) {
      assert AckOk(c, c.acks[if move.LoseCopy? || k < move.k then k else k + 1]);
    }
  }

  lemma GiveUpInv(c: Channel)
    requires Inv(c)
    ensures Inv(Do(c, GiveUp))
  {
    var c' := Do(c, GiveUp);
    forall k | 0 <= k < |c'.copies| ensures CopyOk(c', c'.copies[k]) { assert CopyOk(c, c.copies[k]); }
    forall k | 0 <= k < |c'.acks| ensures AckOk(c', c'.acks[k]) { assert AckOk(c, c.acks[k]); }
  }

  /** Every move keeps the invariant. */
  lemma MoveInv(c: Channel, move: Move)
    requires Inv(c) && Next(c, move).Some?
    ensures Inv(Next(c, move).value)
  {
    match move
    case Send(message, started) =>
      OfferedInv(c, message);
      AiredInv(c.(sender := Offered(c.sender, message)), started);
    case Resend(started) => AiredInv(c, started);
    case GiveUp => GiveUpInv(c);
    case ReadCopy(room, started) => CopyReadInv(c, room, started);
    case ReadAck => AckReadInv(c);
    case LoseCopy(k) => LossInv(c, move);
    case LoseAck(k) => LossInv(c, move);
  }

  lemma RunInv(c: Channel, moves: seq<Move>, c': Channel)
    requires Inv(c) && Runs.Leads(Next, c, moves, c')
    ensures Inv(c')
  {
    forall d, m | Inv(d) && Next(d, m).Some? ensures Inv(Next(d, m).value) { MoveInv(d, m); }
    Runs.Preserved(Next, d => Inv(d), c, moves, c');
  }

  // ---------------------------------------------------------------------
  // What is delivered
  // ---------------------------------------------------------------------

  /**
   Over any number of lost, repeated and delayed frames and messages given up: what
   was taken are messages sent, in order, each at most once, one under each number,
   and the receiver is never behind the sender and at most one number ahead.
   */
  lemma AtMostOnceInOrder(moves: seq<Move>, c: Channel)
    requires Runs.Leads(Next, OPENED, moves, c)
    ensures forall n :: 0 <= n < |c.receiver.taken| ==>
      c.receiver.taken[n] < |c.sender.sent| && c.sender.sent[c.receiver.taken[n]].number == n
    ensures forall m, n :: 0 <= m < n < |c.receiver.taken| ==> c.receiver.taken[m] < c.receiver.taken[n]
    ensures c.sender.acked <= |c.receiver.taken| <= c.sender.acked + 1
  {
    RunInv(OPENED, moves, c);
    forall m, n | 0 <= m < n < |c.receiver.taken| ensures c.receiver.taken[m] < c.receiver.taken[n] {
      var i, j := c.receiver.taken[m], c.receiver.taken[n];
      assert c.sender.sent[i].number == m && c.sender.sent[j].number == n;
    }
  }

  /** Moves that send no message under a number already used. */
  function PlainNext(c: Channel, move: Move): Option<Channel> {
    if move.Send? && Used(c.sender) then None else Next(c, move)
  }

  /** Message i went out under number i. */
  predicate Plain(s: Sender) {
    && (forall i :: 0 <= i < |s.sent| ==> s.sent[i].number == i)
    && |s.sent| == s.acked + (if Used(s) then 1 else 0)
  }

  lemma PlainMove(c: Channel, move: Move)
    requires Inv(c) && Plain(c.sender) && PlainNext(c, move).Some?
    ensures Plain(PlainNext(c, move).value.sender)
  {
    if move.ReadAck? { AckIsExact(c); }
  }

  /** Without such messages the circuit is reliable: what was taken is a prefix of what was sent, missing at most the last message. */
  lemma ReliableCircuit(moves: seq<Move>, c: Channel)
    requires Runs.Leads(PlainNext, OPENED, moves, c)
    ensures |c.receiver.taken| <= |c.sender.sent| <= |c.receiver.taken| + 1
    ensures forall n :: 0 <= n < |c.receiver.taken| ==> c.receiver.taken[n] == n
  {
    var inv := (d: Channel) => Inv(d) && Plain(d.sender);
    forall d, m | inv(d) && PlainNext(d, m).Some? ensures inv(PlainNext(d, m).value) {
      MoveInv(d, m);
      PlainMove(d, m);
    }
    Runs.Preserved(PlainNext, inv, OPENED, moves, c);
  }

  /** An ACK that passes while nothing is waiting acknowledges a message that was given up, under whose number one was taken. */
  lemma StrayAckSource(moves: seq<Move>, c: Channel)
    requires Runs.Leads(Next, OPENED, moves, c)
    requires c.acks != [] && c.acks[0].bits == c.sender.circuit.txAckNumber && c.sender.saved.None?
    ensures Used(c.sender) && |c.receiver.taken| == c.sender.acked + 1
  {
    RunInv(OPENED, moves, c);
    AckIsExact(c);
  }

  // ---------------------------------------------------------------------
  // When a message given up costs the next one
  // ---------------------------------------------------------------------

  ghost predicate NeverTaken(c: Channel, index: nat) {
    forall moves, c' :: Runs.Leads(Next, c, moves, c') ==> index !in c'.receiver.taken
  }

  /** An earlier message under the same number has been taken. */
  predicate Masked(c: Channel, index: nat)
    requires index < |c.sender.sent|
  {
    exists n :: 0 <= n < |c.receiver.taken| && c.receiver.taken[n] < index
                && c.receiver.taken[n] < |c.sender.sent|
                && c.sender.sent[c.receiver.taken[n]].number == c.sender.sent[index].number
  }

  /** Histories only grow. */
  predicate Extends(c: Channel, c': Channel) {
    c.sender.sent <= c'.sender.sent && c.receiver.taken <= c'.receiver.taken
  }

  lemma MoveExtends(c: Channel, move: Move)
    requires Next(c, move).Some?
    ensures Extends(c, Next(c, move).value)
  {
  }

  lemma RunExtends(c: Channel, moves: seq<Move>, c': Channel)
    requires Inv(c) && Runs.Leads(Next, c, moves, c')
    ensures Inv(c') && Extends(c, c')
  {
    var inv := (d: Channel) => Inv(d) && Extends(c, d);
    forall d, m | inv(d) && Next(d, m).Some? ensures inv(Next(d, m).value) {
      MoveInv(d, m);
      MoveExtends(d, m);
    }
    Runs.Preserved(Next, inv, c, moves, c');
  }

  lemma MaskedIsNeverTaken(c: Channel, index: nat)
    requires Inv(c) && index < |c.sender.sent| && Masked(c, index)
    ensures NeverTaken(c, index)
  {
    var n :| 0 <= n < |c.receiver.taken| && c.receiver.taken[n] < index && c.receiver.taken[n] < |c.sender.sent|
             && c.sender.sent[c.receiver.taken[n]].number == c.sender.sent[index].number;
    forall moves, c' | Runs.Leads(Next, c, moves, c') ensures index !in c'.receiver.taken {
      RunExtends(c, moves, c');
      assert c'.receiver.taken[n] == c.receiver.taken[n] && c'.sender.sent[index] == c.sender.sent[index];
    }
  }

  /** All copies on their way can get lost. */
  lemma {:induction false} CopiesLost(c: Channel) returns (moves: seq<Move>)
    ensures Runs.Leads(Next, c, moves, c.(copies := []))
    decreases |c.copies|
  {
    if c.copies == [] {
      moves := [];
    } else {
      var c' := Do(c, LoseCopy(0));
      var more := CopiesLost(c');
      moves := [LoseCopy(0)] + more;
      assert moves[0] == LoseCopy(0) && moves[1..] == more;
    }
  }

  /** A waiting message whose number is still free can be taken. */
  lemma FreeIsTaken(c: Channel) returns (moves: seq<Move>, c': Channel)
    requires Inv(c) && c.sender.saved.Some? && |c.receiver.taken| == c.sender.acked
    ensures Runs.Leads(Next, c, moves, c') && |c.sender.sent| - 1 in c'.receiver.taken
  {
    var lost := CopiesLost(c);
    var quiet := c.(copies := []);
    var again := Do(quiet, Resend(true));
    c' := Do(again, ReadCopy(true, false));
    Runs.One(Next, quiet, Resend(true));
    Runs.One(Next, again, ReadCopy(true, false));
    Runs.Append(Next, c, lost, quiet, [Resend(true)], again);
    Runs.Append(Next, c, lost + [Resend(true)], again, [ReadCopy(true, false)], c');
    moves := lost + [Resend(true)] + [ReadCopy(true, false)];
    assert c'.receiver.taken[|c.receiver.taken|] == |c.sender.sent| - 1;
  }

  /**
   For every reachable state: the message waiting for its ACK will never be taken,
   whatever happens, if and only if an earlier message, given up under the same
   number, has been taken.
   */
  lemma MaskedExactly(moves: seq<Move>, c: Channel)
    requires Runs.Leads(Next, OPENED, moves, c) && c.sender.saved.Some?
    ensures c.sender.sent != []
    ensures NeverTaken(c, |c.sender.sent| - 1) <==> Masked(c, |c.sender.sent| - 1)
  {
    RunInv(OPENED, moves, c);
    var last := |c.sender.sent| - 1;
    if Masked(c, last) {
      MaskedIsNeverTaken(c, last);
    } else if |c.receiver.taken| == c.sender.acked {
      var more, c' := FreeIsTaken(c);
    } else {
      var n := c.sender.acked;
      assert c.receiver.taken[n] == last;
      assert Runs.Leads(Next, c, [], c);
    }
  }

  ghost predicate Reachable(c: Channel) {
    Runs.Reaches(Next, OPENED, c)
  }

  lemma On(c: Channel, move: Move) returns (c': Channel)
    requires Reachable(c) && Next(c, move).Some?
    ensures Reachable(c') && c' == Do(c, move)
  {
    Runs.ReachesOn(Next, OPENED, c, move);
    c' := Do(c, move);
  }

  /** A message is taken, its ACK is not sent, and it is given up. */
  lemma TakenAndGivenUp(first: seq<byte>) returns (c: Channel)
    ensures Reachable(c) && c.sender == Sender(ZEROED, None, 0, [Offer(0, first)])
    ensures c.receiver == Receiver(ZEROED.(rmtTxAckNumber := 1), [0]) && c.copies == [] && c.acks == []
  {
    Runs.ReachesHere(Next, OPENED);
    c := On(OPENED, Send(first, true));
    c := On(c, ReadCopy(true, false));
    c := On(c, GiveUp);
  }

  /** A run in which that happens: the second message is acknowledged and lost. */
  lemma AcknowledgedAndLost(first: seq<byte>, second: seq<byte>) returns (c: Channel, c': Channel)
    ensures Reachable(c) && c.sender.saved.Some? && c.sender.sent == [Offer(0, first), Offer(0, second)]
    ensures Next(c, ReadAck) == Some(c') && c'.sender.acked == 1 && c'.sender.saved.None?
    ensures c.receiver.taken == c'.receiver.taken == [0] && NeverTaken(c', 1)
  {
    c := TakenAndGivenUp(first);
    c := On(c, Send(second, true));
    c := On(c, ReadCopy(true, true));
    c' := On(c, ReadAck);
    ReachableInv(c');
    assert c'.receiver.taken[0] == 0;
    MaskedIsNeverTaken(c', 1);
  }

  lemma ReachableInv(c: Channel)
    requires Reachable(c)
    ensures Inv(c)
  {
    var moves :| Runs.Leads(Next, OPENED, moves, c);
    RunInv(OPENED, moves, c);
  }
}
