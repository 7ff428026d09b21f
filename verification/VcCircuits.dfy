/** Virtual circuits: the state of one circuit, the `vcConnecting` bitmap, link timeouts and bounded retries. */
module VcCircuits {
  import opened Basics

  const VC_SERVER := 0
  const LINK_BREAK_MULTIPLIER := 3

  datatype VcState = LinkDown | LinkAlive | SendUnknownAcks | WaitSyncAcks | WaitZeroAcks | Connected

  datatype Circuit = Circuit(
    vcState: VcState,
    wasConnected: bool,
    lastTrafficMillis: nat,
    txAckNumber: Number,
    rmtTxAckNumber: Number,
    rxAckNumber: Number)

  /** A circuit whose three-way handshake needs driving. */
  predicate Connecting(c: Circuit) {
    || c.vcState.SendUnknownAcks? || c.vcState.WaitSyncAcks? || c.vcState.WaitZeroAcks?
    || (c.vcState.LinkAlive? && c.wasConnected)
  }

  function ChangeState(c: Circuit, state: VcState): Circuit {
    if state == c.vcState then c
    else c.(vcState := state, wasConnected := c.wasConnected && !state.Connected?)
  }

  function ZeroNumbers(c: Circuit): Circuit {
    c.(txAckNumber := 0, rmtTxAckNumber := 0, rxAckNumber := 0)
  }

  /** Received UNKNOWN_ACKS; the SYNC_ACKS reply may have been refused. */
  function OnUnknownAcks(c: Circuit): Circuit {
    ChangeState(c, WaitZeroAcks)
  }

  /** Received SYNC_ACKS; `sent` says whether the ZERO_ACKS reply started. */
  function OnSyncAcks(c: Circuit, sent: bool): Circuit {
    if sent then ChangeState(ZeroNumbers(c), Connected) else c
  }

  function OnZeroAcks(c: Circuit): Circuit {
    ChangeState(ZeroNumbers(c), Connected)
  }

  function OnHeartbeat(c: Circuit): Circuit {
    if c.vcState.LinkDown? then ChangeState(c, LinkAlive) else c
  }

  /** The ATC command. */
  function OnConnectCommand(c: Circuit): Circuit {
    if c.vcState.LinkAlive? then ChangeState(c, SendUnknownAcks) else c
  }

  function OnLinkBreak(c: Circuit): Circuit {
    ChangeState(c, LinkDown)
  }

  /** Retries exhausted: remember to reconnect, then break. */
  function OnRetriesExhausted(c: Circuit): Circuit {
    OnLinkBreak(c.(wasConnected := true))
  }

  // ---------------------------------------------------------------------
  // The circuit table
  // ---------------------------------------------------------------------

  /** Bit i of a word: `word & (1 << i)` is not zero. */
  predicate IsSet(word: nat, i: nat) {
    if i == 0 then word % 2 == 1 else IsSet(word / 2, i - 1)
  }

  /** `word | (1 << i)`, half by half. */
  function Raise(word: nat, i: nat): nat {
    if i == 0 then word - word % 2 + 1 else 2 * Raise(word / 2, i - 1) + word % 2
  }

  /** `word & ~(1 << i)`, half by half. */
  function Lower(word: nat, i: nat): nat {
    if i == 0 then word - word % 2 else 2 * Lower(word / 2, i - 1) + word % 2
  }

  /** Raising sets bit i and no other. */
  lemma {:induction false} RaisedBit(word: nat, i: nat, j: nat)
    ensures IsSet(Raise(word, i), j) <==> i == j || IsSet(word, j)
  {
    if i > 0 && j > 0 { RaisedBit(word / 2, i - 1, j - 1); }
  }

  /** Lowering clears bit i and no other. */
  lemma {:induction false} LoweredBit(word: nat, i: nat, j: nat)
    ensures IsSet(Lower(word, i), j) <==> i != j && IsSet(word, j)
  {
    if i > 0 && j > 0 { LoweredBit(word / 2, i - 1, j - 1); }
  }

  function Power2(n: nat): (r: nat)
    ensures r >= 1
  {
    if n == 0 then 1 else 2 * Power2(n - 1)
  }

  /** Neither operation leaves a word of n bits. */
  lemma {:induction false} Width(word: nat, i: nat, n: nat)
    requires i < n && word < Power2(n)
    ensures Raise(word, i) < Power2(n) && Lower(word, i) < Power2(n)
  {
    if i > 0 { Width(word / 2, i - 1, n - 1); }
  }

  lemma RaisedBits(word: nat, i: nat)
    ensures forall j: nat :: IsSet(Raise(word, i), j) <==> i == j || IsSet(word, j)
  {
    forall j: nat ensures IsSet(Raise(word, i), j) <==> i == j || IsSet(word, j) { RaisedBit(word, i, j); }
  }

  lemma LoweredBits(word: nat, i: nat)
    ensures forall j: nat :: IsSet(Lower(word, i), j) <==> i != j && IsSet(word, j)
  {
    forall j: nat ensures IsSet(Lower(word, i), j) <==> i != j && IsSet(word, j) { LoweredBit(word, i, j); }
  }

  lemma NoneSet(i: nat)
    ensures !IsSet(0, i)
  {
    if i > 0 { NoneSet(i - 1); }
  }

  /** A word of n bits that is not zero has a bit set. */
  lemma {:induction false} SomeSet(word: nat, n: nat) returns (i: nat)
    requires 0 < word < Power2(n)
    ensures i < n && IsSet(word, i)
  {
    if word % 2 == 1 {
      i := 0;
    } else {
      var j := SomeSet(word / 2, n - 1);
      i := j + 1;
    }
  }

  predicate Expired(c: Circuit, now: nat, heartbeatTimeout: nat)
    requires now < MILLIS && c.lastTrafficMillis < MILLIS
  {
    Elapsed(now, c.lastTrafficMillis) > LINK_BREAK_MULTIPLIER * heartbeatTimeout
  }

  /** A client has just lost the server, which times the hopping of all radios. */
  predicate ServerLost(server: Circuit, myVc: int, now: nat, heartbeatTimeout: nat)
    requires now < MILLIS && server.lastTrafficMillis < MILLIS
  {
    myVc != VC_SERVER && !server.vcState.LinkDown? && Expired(server, now, heartbeatTimeout)
  }

  /** What the timeout sweep makes of circuit i. */
  function Swept(c: Circuit, i: nat, myVc: int, serverLost: bool, now: nat, heartbeatTimeout: nat): Circuit
    requires now < MILLIS && c.lastTrafficMillis < MILLIS
  {
    if i != myVc && (serverLost || Expired(c, now, heartbeatTimeout)) then OnLinkBreak(c) else c
  }

  /** The sweep breaks circuit i. */
  predicate Breaks(c: Circuit, i: nat, myVc: int, serverLost: bool, now: nat, heartbeatTimeout: nat)
    requires now < MILLIS && c.lastTrafficMillis < MILLIS
  {
    i != myVc && !c.vcState.LinkDown? && (serverLost || Expired(c, now, heartbeatTimeout))
  }

  /**
   The sweep stops the ACK timer when it breaks the circuit of the latest
   transmission, whichever circuit the outstanding message belongs to.
   */
  predicate TimerStops(circuits: seq<Circuit>, txDestVc: int, myVc: int, now: nat, heartbeatTimeout: nat)
    requires |circuits| == MAX_VC && now < MILLIS && forall i :: 0 <= i < MAX_VC ==> circuits[i].lastTrafficMillis < MILLIS
  {
    && 0 <= txDestVc < MAX_VC
    && Breaks(circuits[txDestVc], txDestVc, myVc, ServerLost(circuits[VC_SERVER], myVc, now, heartbeatTimeout), now, heartbeatTimeout)
  }

  // ---------------------------------------------------------------------
  // Bounded retry
  // ---------------------------------------------------------------------

  datatype RetryState = RetryState(waiting: bool, sentCount: nat, circuit: Circuit)

  /** A due pass retransmits while the count allows it. */
  predicate Attempts(r: RetryState, due: bool, maxResends: nat) {
    r.waiting && !r.circuit.vcState.LinkDown? && due && (maxResends == 0 || r.sentCount < maxResends)
  }

  /** One pass while an ACK is outstanding and none arrives. */
  function RetryPass(r: RetryState, due: bool, maxResends: nat): RetryState {
    if !r.waiting then r
    else if r.circuit.vcState.LinkDown? then r.(waiting := false)
    else if !due then r
    else if Attempts(r, due, maxResends) then r.(sentCount := (r.sentCount + 1) % 0x100)
    else RetryState(false, r.sentCount, OnRetriesExhausted(r.circuit))
  }

  /** State and number of retransmit attempts after a run of passes without an ACK. */
  function RetryRun(r: RetryState, dues: seq<bool>, maxResends: nat): (RetryState, nat)
    decreases |dues|
  {
    if dues == [] then (r, 0)
    else
      var (last, attempts) := RetryRun(RetryPass(r, dues[0], maxResends), dues[1..], maxResends);
      (last, attempts + if Attempts(r, dues[0], maxResends) then 1 else 0)
  }

  function CountTrue(flags: seq<bool>): nat {
    if flags == [] then 0 else (if flags[0] then 1 else 0) + CountTrue(flags[1..])
  }

  lemma {:induction false} StoppedStaysStopped(r: RetryState, dues: seq<bool>, maxResends: nat)
    requires !r.waiting
    ensures RetryRun(r, dues, maxResends) == (r, 0)
    decreases |dues|
  {
    if dues != [] { StoppedStaysStopped(r, dues[1..], maxResends); }
  }

  /**
   With a limit m > 0 and c sends already counted, every due pass is one of the
   m - c remaining attempts or the one that gives up: the exact number of
   attempts is known, and the link is broken as soon as they are used up.
   */
  lemma {:induction false} RetryIsBounded(r: RetryState, dues: seq<bool>, m: nat)
    requires 0 < m < 0x100 && r.waiting && r.sentCount <= m && !r.circuit.vcState.LinkDown?
    ensures var (last, attempts) := RetryRun(r, dues, m);
            var limit := m - r.sentCount;
            && attempts == (if CountTrue(dues) <= limit then CountTrue(dues) else limit)
            && last.waiting == (CountTrue(dues) <= limit)
            && (!last.waiting ==> last.circuit == OnRetriesExhausted(r.circuit) && last.circuit.vcState.LinkDown?)
            && (last.waiting ==> last.circuit == r.circuit)
    decreases |dues|
  {
    if dues != [] {
      var r' := RetryPass(r, dues[0], m);
      if r'.waiting {
        RetryIsBounded(r', dues[1..], m);
      } else {
        StoppedStaysStopped(r', dues[1..], m);
      }
    }
  }

  /** With `maxResends` 0 the radio never gives up. */
  lemma {:induction false} UnlimitedRetry(r: RetryState, dues: seq<bool>)
    requires r.waiting && !r.circuit.vcState.LinkDown?
    ensures RetryRun(r, dues, 0).0.waiting && RetryRun(r, dues, 0).1 == CountTrue(dues)
    decreases |dues|
  {
    if dues != [] { UnlimitedRetry(RetryPass(r, dues[0], 0), dues[1..]); }
  }
}
