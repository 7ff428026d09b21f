/**
 The parts together.  Beside each radio stand its buffers to and from the host:
 the escape filter with radioTxBuffer, and serialTransmitBuffer.  Frames are cut
 from the one, and accepted frames are put into the other on the strength of
 the radio's own acceptance test.
 */
module EndToEnd {
  import opened Basics
  import opened P2pRadio
  import Arq
  import P2pSystem
  import SerialInput
  import CircularBuffer
  import Runs

  const SERIAL_TRANSMIT_SIZE := 4096

  // ---------------------------------------------------------------------
  // Byte streams
  // ---------------------------------------------------------------------

  /** Messages whose bytes come from the sending host. */
  predicate FromHost(m: Arq.Message) {
    m.Data?
  }

  /** Messages whose bytes go to the receiving host. */
  predicate ToHost(m: Arq.Message) {
    m.Data? || m.RemoteCommandResponse?
  }

  /** The bytes of the messages that are `wanted`, in order. */
  function Bytes(messages: seq<Arq.Message>, wanted: Arq.Message -> bool): seq<byte> {
    if messages == [] then []
    else
      var m := messages[|messages| - 1];
      Bytes(messages[..|messages| - 1], wanted) + (if wanted(m) && !m.Heartbeat? then m.bytes else [])
  }

  lemma {:induction false} BytesAppend(s: seq<Arq.Message>, t: seq<Arq.Message>, wanted: Arq.Message -> bool)
    ensures Bytes(s + t, wanted) == Bytes(s, wanted) + Bytes(t, wanted)
  {
    if t == [] {
      assert s + t == s;
    } else {
      var most, m := t[..|t| - 1], t[|t| - 1];
      BytesAppend(s, most, wanted);
      assert (s + t)[..|s + t| - 1] == s + most && (s + t)[|s + t| - 1] == m;
      Associates(Bytes(s, wanted), Bytes(most, wanted), if wanted(m) && !m.Heartbeat? then m.bytes else []);
    }
  }

  lemma Associates(s: seq<byte>, t: seq<byte>, u: seq<byte>)
    ensures (s + t) + u == s + (t + u)
  {
  }

  lemma BytesOfOne(m: Arq.Message, wanted: Arq.Message -> bool)
    ensures Bytes([m], wanted) == if wanted(m) && !m.Heartbeat? then m.bytes else []
  {
    assert [m][..0] == [];
  }

  lemma BytesPrefix(s: seq<Arq.Message>, t: seq<Arq.Message>, wanted: Arq.Message -> bool)
    requires s <= t
    ensures Bytes(s, wanted) <= Bytes(t, wanted)
  {
    BytesAppend(s, t[|s|..], wanted);
    assert s + t[|s|..] == t;
  }

  lemma {:induction false} SameBytes(messages: seq<Arq.Message>, wanted: Arq.Message -> bool, other: Arq.Message -> bool)
    requires forall m :: m in messages ==> wanted(m) == other(m)
    ensures Bytes(messages, wanted) == Bytes(messages, other)
  {
    if messages != [] { SameBytes(messages[..|messages| - 1], wanted, other); }
  }

  /** Bytes offered by `side` in session k, and bytes it accepted. */
  function SentIn(history: seq<P2pSystem.Ends>, side: Side, k: nat, wanted: Arq.Message -> bool): seq<byte>
    requires k < |history|
  {
    Bytes(P2pSystem.Payloads(history[k].At(side).offered), wanted)
  }

  function GotIn(history: seq<P2pSystem.Ends>, side: Side, k: nat, wanted: Arq.Message -> bool): seq<byte>
    requires k < |history|
  {
    Bytes(P2pSystem.Payloads(history[k].At(side).accepted), wanted)
  }

  function AllSent(history: seq<P2pSystem.Ends>, side: Side, wanted: Arq.Message -> bool): seq<byte> {
    if history == [] then []
    else AllSent(history[..|history| - 1], side, wanted) + SentIn(history, side, |history| - 1, wanted)
  }

  function AllGot(history: seq<P2pSystem.Ends>, side: Side, wanted: Arq.Message -> bool): seq<byte> {
    if history == [] then []
    else AllGot(history[..|history| - 1], side, wanted) + GotIn(history, side, |history| - 1, wanted)
  }

  lemma {:induction false} LogBytes(history: seq<P2pSystem.Ends>, side: Side, wanted: Arq.Message -> bool)
    ensures Bytes(P2pSystem.Given(history, side), wanted) == AllSent(history, side, wanted)
    ensures Bytes(P2pSystem.Taken(history, side), wanted) == AllGot(history, side, wanted)
  {
    if history != [] {
      var k := |history| - 1;
      LogBytes(history[..k], side, wanted);
      BytesAppend(P2pSystem.Given(history[..k], side), P2pSystem.Payloads(history[k].At(side).offered), wanted);
      BytesAppend(P2pSystem.Taken(history[..k], side), P2pSystem.Payloads(history[k].At(side).accepted), wanted);
    }
  }

  /**
   Through loss, link resets and reboots, along every run that overwrites no
   message, and for any kinds of messages: the bytes drawn by one radio and the
   bytes handed over by the other fall into sessions, and in each session those
   received are a prefix of those sent.
   */
  lemma SessionsOfBytes(events: seq<P2pSystem.Event>, sys: P2pSystem.System, me: Side, wanted: Arq.Message -> bool)
    requires Runs.Leads(P2pSystem.PoliteNext, P2pSystem.INITIAL, events, sys)
    ensures Bytes(sys.Radio(me).drawn, wanted) == AllSent(sys.history, me, wanted)
    ensures Bytes(sys.Radio(Other(me)).host, wanted) == AllGot(sys.history, Other(me), wanted)
    ensures forall k :: 0 <= k < |sys.history| ==>
      GotIn(sys.history, Other(me), k, wanted) <= SentIn(sys.history, me, k, wanted)
  {
    P2pSystem.InitialInv();
    P2pSystem.PoliteRun(P2pSystem.INITIAL, events, sys);
    assert P2pSystem.LogInv(sys, me) && P2pSystem.LogInv(sys, Other(me));
    LogBytes(sys.history, me, wanted);
    LogBytes(sys.history, Other(me), wanted);
    forall k | 0 <= k < |sys.history| ensures GotIn(sys.history, Other(me), k, wanted) <= SentIn(sys.history, me, k, wanted) {
      SessionBytes(sys, me, k, wanted);
    }
  }

  lemma SessionBytes(sys: P2pSystem.System, me: Side, k: nat, wanted: Arq.Message -> bool)
    requires P2pSystem.Good(sys) && P2pSystem.Unreplaced(sys) && k < |sys.history|
    ensures GotIn(sys.history, Other(me), k, wanted) <= SentIn(sys.history, me, k, wanted)
  {
    P2pSystem.GoodDelivery(sys, me, k);
    P2pSystem.UnreplacedIsReliable(sys, me, k);
    BytesPrefix(P2pSystem.Payloads(sys.history[k].At(Other(me)).accepted), P2pSystem.Payloads(sys.history[k].At(me).offered), wanted);
  }

  /** The messages in order, without those at positions in `lost`. */
  function Without(messages: seq<Arq.Message>, lost: set<nat>): seq<Arq.Message> {
    if messages == [] then []
    else
      var last := |messages| - 1;
      Without(messages[..last], lost) + (if last in lost then [] else [messages[last]])
  }

  /** `got` is `sent` with a HEARTBEAT in place of each message in `lost`. */
  predicate GotWithout(got: seq<Arq.Message>, sent: seq<Arq.Message>, lost: set<nat>) {
    && |got| == |sent|
    && forall n :: 0 <= n < |got| ==> got[n] == if n in lost then Arq.Heartbeat else sent[n]
  }

  lemma {:induction false} LostAreGaps(got: seq<Arq.Message>, sent: seq<Arq.Message>, lost: set<nat>)
    requires GotWithout(got, sent, lost)
    ensures P2pSystem.Payloads(got) == P2pSystem.Payloads(Without(sent, lost))
    decreases |got|
  {
    if got != [] {
      var last := |got| - 1;
      assert GotWithout(got[..last], sent[..last], lost);
      LostAreGaps(got[..last], sent[..last], lost);
      if last in lost {
        assert P2pSystem.Payloads(got) == P2pSystem.Payloads(got[..last]);
        assert Without(sent, lost) == Without(sent[..last], lost);
      } else {
        P2pSystem.PayloadsSnoc(Without(sent[..last], lost), sent[last]);
      }
    }
  }

  /** In session k the bytes received are those of the messages sent, in order, without the messages in `lost`. */
  predicate ArrivesWithout(sys: P2pSystem.System, me: Side, k: nat, wanted: Arq.Message -> bool, lost: set<nat>)
    requires k < |sys.history|
  {
    var offered, count := sys.history[k].At(me).offered, |sys.history[k].At(Other(me)).accepted|;
    && count <= |offered| <= count + 1
    && GotIn(sys.history, Other(me), k, wanted) == Bytes(P2pSystem.Payloads(Without(offered[..count], lost)), wanted)
  }

  ghost predicate ArrivesWithGaps(sys: P2pSystem.System, me: Side, k: nat, wanted: Arq.Message -> bool)
    requires k < |sys.history|
  {
    exists lost :: lost <= sys.history[k].At(me).replaced && ArrivesWithout(sys, me, k, wanted, lost)
  }

  lemma Gaps(sys: P2pSystem.System, me: Side, k: nat, wanted: Arq.Message -> bool)
    requires k < |sys.history| && P2pSystem.OrderedDelivery(sys, me, k)
    ensures ArrivesWithGaps(sys, me, k, wanted)
  {
    var got, offered := sys.history[k].At(Other(me)).accepted, sys.history[k].At(me).offered;
    var lost := set n: nat | 0 <= n < |got| && got[n] != offered[n];
    LostAreGaps(got, offered[..|got|], lost);
    assert ArrivesWithout(sys, me, k, wanted, lost);
  }

  lemma GoodGaps(sys: P2pSystem.System, me: Side, k: nat, wanted: Arq.Message -> bool)
    requires P2pSystem.Good(sys) && k < |sys.history|
    ensures ArrivesWithGaps(sys, me, k, wanted)
  {
    P2pSystem.GoodDelivery(sys, me, k);
    Gaps(sys, me, k, wanted);
  }

  /**
   The same along every run, HEARTBEATs that overwrite messages included: in each
   session the bytes received are those of the messages sent, each at most once and
   in order, but for messages that a HEARTBEAT replaced and at most the last one.
   */
  lemma SessionsWithGaps(events: seq<P2pSystem.Event>, sys: P2pSystem.System, me: Side, wanted: Arq.Message -> bool)
    requires Runs.Leads(P2pSystem.Next, P2pSystem.INITIAL, events, sys)
    ensures Bytes(sys.Radio(me).drawn, wanted) == AllSent(sys.history, me, wanted)
    ensures Bytes(sys.Radio(Other(me)).host, wanted) == AllGot(sys.history, Other(me), wanted)
    ensures forall k :: 0 <= k < |sys.history| ==> ArrivesWithGaps(sys, me, k, wanted)
  {
    P2pSystem.InitialInv();
    P2pSystem.RunGood(P2pSystem.INITIAL, events, sys);
    assert P2pSystem.LogInv(sys, me) && P2pSystem.LogInv(sys, Other(me));
    LogBytes(sys.history, me, wanted);
    LogBytes(sys.history, Other(me), wanted);
    forall k | 0 <= k < |sys.history| ensures ArrivesWithGaps(sys, me, k, wanted) {
      GoodGaps(sys, me, k, wanted);
    }
  }

  // ---------------------------------------------------------------------
  // Radios with their buffers
  // ---------------------------------------------------------------------

  /** The way in from the host, and the way out to it since the link came up. */
  datatype Host = Host(line: SerialInput.Line, out: CircularBuffer.Pipe)

  datatype Hosted = Hosted(sys: P2pSystem.System, left: Host, right: Host)
  {
    function At(side: Side): Host {
      if side.Left? then left else right
    }

    function With(side: Side, h: Host): Hosted {
      if side.Left? then this.(left := h) else this.(right := h)
    }
  }

  datatype Move =
    | Link(move: P2pSystem.Move, hostTakes: nat)   // `hostTakes` bytes are printed if room has to be made
    | Input(input: SerialInput.Event)
    | Print(count: nat)

  const EMPTY_PIPE := CircularBuffer.Pipe([], [], [])
  const NO_HOST := Host(SerialInput.SILENT, EMPTY_PIPE)
  const INITIAL := Hosted(P2pSystem.INITIAL, NO_HOST, NO_HOST)

  /** The buffers a pass of the radio finds: the data it may cut and the room it reports. */
  predicate Sees(h: Host, ev: Events) {
    && (ev.data.Some? ==> ev.data.value <= h.line.buffer)
    && ev.space.inCommandMode == h.line.commandMode
    && ev.space.serialFree == SERIAL_TRANSMIT_SIZE - |h.out.queue|
  }

  predicate Possible(h: Hosted, me: Side, move: Move) {
    match move
    case Link(m, _) => P2pSystem.Possible(h.sys, me, m) && (m.Pass? ==> Sees(h.At(me), m.ev))
    case Input(e) => !e.Drain? && SerialInput.Allowed(h.At(me).line, e)
    case Print(count) => count <= |h.At(me).out.queue|
  }

  /** What `longer` has beyond `shorter`. */
  function Gained(shorter: seq<Arq.Message>, longer: seq<Arq.Message>): seq<Arq.Message> {
    if |shorter| <= |longer| then longer[|shorter|..] else []
  }

  /** The cut leaves radioTxBuffer. */
  function Cut(line: SerialInput.Line, drawn: seq<Arq.Message>): SerialInput.Line {
    if |drawn| == 1 && FromHost(drawn[0]) && |drawn[0].bytes| <= |line.buffer|
    then SerialInput.Step(line, SerialInput.Drain(|drawn[0].bytes|))
    else line
  }

  /** The accepted frame goes to serialTransmitBuffer. */
  function Deliver(out: CircularBuffer.Pipe, got: seq<Arq.Message>, hostTakes: nat): CircularBuffer.Pipe {
    if |got| == 1 && ToHost(got[0]) then CircularBuffer.Output(out, got[0].bytes, hostTakes, SERIAL_TRANSMIT_SIZE) else out
  }

  /** `discardPreviousData` and its like: what waits is gone, escape characters held back stay. */
  function Discarded(line: SerialInput.Line): SerialInput.Line {
    line.(buffer := [], drained := [], stream := SerialInput.Escapes(line.pending))
  }

  /** The buffers after their radio went from `r` to `r'`. */
  function HostAfter(h: Host, r: Radio, r': Radio, hostTakes: nat): Host {
    var out := Deliver(h.out, Gained(r.host, r'.host), hostTakes);
    var line := Cut(h.line, Gained(r.drawn, r'.drawn));
    if IsUp(r'.state) then
      if IsUp(r.state) then Host(line, out) else Host(Discarded(h.line), EMPTY_PIPE)
    else if IsUp(r.state) then Host(Discarded(line), out)
    else h
  }

  function Do(h: Hosted, me: Side, move: Move): Hosted
    requires Possible(h, me, move)
  {
    var host := h.At(me);
    match move
    case Link(m, hostTakes) =>
      var sys' := P2pSystem.Do(h.sys, me, m);
      var host' := if m.Reboot? then NO_HOST else HostAfter(host, h.sys.Radio(me), sys'.Radio(me), hostTakes);
      h.(sys := sys').With(me, host')
    case Input(e) => h.With(me, host.(line := SerialInput.Step(host.line, e)))
    case Print(count) => h.With(me, host.(out := CircularBuffer.Through(host.out, CircularBuffer.Out(count), SERIAL_TRANSMIT_SIZE)))
  }

  /** The move puts an accepted frame into serialTransmitBuffer that fills it, with nothing printed. */
  predicate Overfills(h: Hosted, me: Side, move: Move)
    requires Possible(h, me, move)
  {
    && move.Link?
    && var got := Gained(h.sys.Radio(me).host, P2pSystem.Do(h.sys, me, move.move).Radio(me).host);
    && |got| == 1 && ToHost(got[0])
    && CircularBuffer.ExactFit(|h.At(me).out.queue|, |got[0].bytes|, move.hostTakes, SERIAL_TRANSMIT_SIZE)
  }

  datatype Event = Event(me: Side, move: Move)

  /** Moves that overfill no buffer. */
  function RoomyNext(h: Hosted, e: Event): Option<Hosted> {
    if !Possible(h, e.me, e.move) || Overfills(h, e.me, e.move) then None else Some(Do(h, e.me, e.move))
  }

  /** Moves that overwrite no message and overfill no buffer. */
  function CleanNext(h: Hosted, e: Event): Option<Hosted> {
    if e.move.Link? && P2pSystem.Overwrites(h.sys, e.me, e.move.move) then None else RoomyNext(h, e)
  }

  // ---------------------------------------------------------------------
  // Invariant
  // ---------------------------------------------------------------------

  predicate BuffersInv(h: Host) {
    SerialInput.Inv(h.line) && |h.out.queue| < SERIAL_TRANSMIT_SIZE
  }

  /** The buffers match this end of the session. */
  predicate Matches(h: Host, e: Arq.Endpoint) {
    && CircularBuffer.Lossless(h.out)
    && h.out.given == Bytes(P2pSystem.Payloads(e.accepted), ToHost)
    && h.line.drained == Bytes(P2pSystem.Payloads(e.offered), FromHost)
  }

  predicate HostInv(h: Hosted, me: Side) {
    && BuffersInv(h.At(me))
    && (IsUp(h.sys.Radio(me).state) ==> h.sys.history != [] && Matches(h.At(me), P2pSystem.LastEnd(h.sys, me)))
  }

  predicate Matched(h: Hosted) {
    P2pSystem.Good(h.sys) && HostInv(h, Left) && HostInv(h, Right)
  }

  predicate Inv(h: Hosted) {
    Matched(h) && P2pSystem.Unreplaced(h.sys)
  }

  lemma InitialInv()
    ensures Inv(INITIAL)
  {
    P2pSystem.InitialInv();
    assert SerialInput.Escapes(0) == [];
  }

  lemma DiscardedInv(h: Host, out: CircularBuffer.Pipe)
    requires SerialInput.Inv(h.line) && |out.queue| < SERIAL_TRANSMIT_SIZE
    ensures BuffersInv(Host(Discarded(h.line), out))
  {
  }

  lemma FreshMatches(line: SerialInput.Line)
    ensures Matches(Host(Discarded(line), EMPTY_PIPE), Arq.FRESH)
  {
  }

  lemma CutInv(line: SerialInput.Line, drawn: seq<Arq.Message>)
    requires SerialInput.Inv(line)
    requires |drawn| == 1 && FromHost(drawn[0]) ==> drawn[0].bytes <= line.buffer
    requires |drawn| <= 1
    ensures SerialInput.Inv(Cut(line, drawn)) && Cut(line, drawn).drained == line.drained + Bytes(drawn, FromHost)
  {
    if drawn != [] {
      assert drawn == [drawn[0]];
      BytesOfOne(drawn[0], FromHost);
      if FromHost(drawn[0]) { CutOne(line, drawn[0].bytes); }
    }
  }

  lemma CutOne(line: SerialInput.Line, bytes: seq<byte>)
    requires SerialInput.Inv(line) && bytes <= line.buffer
    ensures var line' := SerialInput.Step(line, SerialInput.Drain(|bytes|));
            SerialInput.Inv(line') && line'.drained == line.drained + bytes
  {
    SerialInput.StepInv(line, SerialInput.Drain(|bytes|));
  }

  /** An accepted frame keeps the stream to the host whole unless it overfills the buffer. */
  lemma DeliverWhole(out: CircularBuffer.Pipe, got: seq<Arq.Message>, hostTakes: nat)
    requires CircularBuffer.Lossless(out) && |out.queue| < SERIAL_TRANSMIT_SIZE && |got| <= 1
    requires |got| == 1 && ToHost(got[0]) ==> |got[0].bytes| <= SERIAL_TRANSMIT_SIZE - |out.queue|
    ensures var out' := Deliver(out, got, hostTakes);
            && |out'.queue| < SERIAL_TRANSMIT_SIZE && out'.given == out.given + Bytes(got, ToHost)
            && (CircularBuffer.Lossless(out') <==>
                  !(|got| == 1 && ToHost(got[0])
                    && CircularBuffer.ExactFit(|out.queue|, |got[0].bytes|, hostTakes, SERIAL_TRANSMIT_SIZE)))
  {
    if got != [] {
      assert got == [got[0]];
      BytesOfOne(got[0], ToHost);
      if ToHost(got[0]) { CircularBuffer.AcceptedFrameExactly(out, got[0].bytes, hostTakes, SERIAL_TRANSMIT_SIZE); }
    }
  }

  /** One pass gains at most one message, fitting the room it saw, and draws at most one, from the bytes it saw. */
  lemma PassGains(r: Radio, ev: Events, h: Host)
    requires ev.Valid() && Sees(h, ev)
    ensures var got, drawn := Gained(r.host, Update(r, ev).host), Gained(r.drawn, Update(r, ev).drawn);
            && |got| <= 1 && |drawn| <= 1
            && (|got| == 1 && ToHost(got[0]) ==> |got[0].bytes| <= SERIAL_TRANSMIT_SIZE - |h.out.queue|)
            && (|drawn| == 1 && FromHost(drawn[0]) ==> drawn[0].bytes <= h.line.buffer)
            && (!r.state.LinkUp? ==> got == [] && drawn == [])
  {
    OneMessageAPass(r, ev);
    var r' := Update(r, ev);
    if r'.host != r.host {
      var m :| r'.host == r.host + [m] && Arq.HasRoom(m, ev.space);
      assert Gained(r.host, r'.host) == [m];
    } else {
      assert Gained(r.host, r'.host) == [];
    }
    if r'.drawn == r.drawn {
      assert Gained(r.drawn, r'.drawn) == [];
    } else if ev.data.Some? && r'.drawn == r.drawn + [Arq.Data(ev.data.value)] {
      assert Gained(r.drawn, r'.drawn) == [Arq.Data(ev.data.value)];
    } else {
      assert Gained(r.drawn, r'.drawn) == [ev.command.value];
    }
  }

  /** The same for a move that is not a pass. */
  lemma OtherGains(sys: P2pSystem.System, me: Side, m: P2pSystem.Move)
    requires P2pSystem.Possible(sys, me, m) && !m.Pass? && !m.Reboot?
    ensures var r, r' := sys.Radio(me), P2pSystem.Do(sys, me, m).Radio(me);
            Gained(r.host, r'.host) == [] && Gained(r.drawn, r'.drawn) == [] && r'.state == r.state
  {
  }

  predicate GainsFit(h: Host, r: Radio, r': Radio) {
    var got, drawn := Gained(r.host, r'.host), Gained(r.drawn, r'.drawn);
    && |got| <= 1 && |drawn| <= 1
    && (|got| == 1 && ToHost(got[0]) ==> |got[0].bytes| <= SERIAL_TRANSMIT_SIZE - |h.out.queue|)
    && (|drawn| == 1 && FromHost(drawn[0]) ==> drawn[0].bytes <= h.line.buffer)
  }

  lemma LinkGains(h: Hosted, me: Side, m: P2pSystem.Move, hostTakes: nat)
    requires Possible(h, me, Link(m, hostTakes)) && !m.Reboot?
    ensures GainsFit(h.At(me), h.sys.Radio(me), P2pSystem.Do(h.sys, me, m).Radio(me))
  {
    if m.Pass? { PassGains(h.sys.Radio(me), m.ev, h.At(me)); } else { OtherGains(h.sys, me, m); }
  }

  /** A radio that stays up: its buffers go on matching its end of the session. */
  lemma StaysUp(h: Host, r: Radio, r': Radio, e: Arq.Endpoint, e': Arq.Endpoint, hostTakes: nat)
    requires BuffersInv(h) && Matches(h, e) && P2pSystem.Logs(r, r', e, e') && GainsFit(h, r, r')
    requires IsUp(r.state) && IsUp(r'.state)
    requires var got := Gained(r.host, r'.host);
             !(|got| == 1 && ToHost(got[0])
               && CircularBuffer.ExactFit(|h.out.queue|, |got[0].bytes|, hostTakes, SERIAL_TRANSMIT_SIZE))
    ensures BuffersInv(HostAfter(h, r, r', hostTakes)) && Matches(HostAfter(h, r, r', hostTakes), e')
  {
    var got, drawn := Gained(r.host, r'.host), Gained(r.drawn, r'.drawn);
    DeliverWhole(h.out, got, hostTakes);
    CutInv(h.line, drawn);
    BytesAppend(P2pSystem.Payloads(e.accepted), got, ToHost);
    BytesAppend(P2pSystem.Payloads(e.offered), drawn, FromHost);
  }

  /** A radio that goes down leaves buffers in order. */
  lemma GoesDown(h: Host, r: Radio, r': Radio, e: Arq.Endpoint, hostTakes: nat)
    requires BuffersInv(h) && Matches(h, e) && GainsFit(h, r, r') && IsUp(r.state) && !IsUp(r'.state)
    ensures BuffersInv(HostAfter(h, r, r', hostTakes))
  {
    var got, drawn := Gained(r.host, r'.host), Gained(r.drawn, r'.drawn);
    DeliverWhole(h.out, got, hostTakes);
    CutInv(h.line, drawn);
    DiscardedInv(Host(Cut(h.line, drawn), h.out), Deliver(h.out, got, hostTakes));
  }

  lemma OwnHostInv(h: Hosted, me: Side, m: P2pSystem.Move, hostTakes: nat)
    requires Matched(h) && Possible(h, me, Link(m, hostTakes)) && !Overfills(h, me, Link(m, hostTakes)) && !m.Reboot?
    ensures HostInv(Do(h, me, Link(m, hostTakes)), me)
  {
    var sys' := P2pSystem.Do(h.sys, me, m);
    var r, r', host := h.sys.Radio(me), sys'.Radio(me), h.At(me);
    assert HostInv(h, me);
    LinkGains(h, me, m, hostTakes);
    if IsUp(r'.state) {
      P2pSystem.UpEffect(h.sys, me, m);
      if IsUp(r.state) {
        StaysUp(host, r, r', P2pSystem.LastEnd(h.sys, me), P2pSystem.LastEnd(sys', me), hostTakes);
      } else {
        FreshMatches(host.line);
        DiscardedInv(host, EMPTY_PIPE);
      }
    } else if IsUp(r.state) {
      GoesDown(host, r, r', P2pSystem.LastEnd(h.sys, me), hostTakes);
    }
  }

  lemma RebootedInv(h: Hosted, me: Side, hostTakes: nat)
    requires Matched(h)
    ensures HostInv(Do(h, me, Link(P2pSystem.Reboot, hostTakes)), me)
  {
    assert SerialInput.Escapes(0) == [];
  }

  lemma PeerHostInv(h: Hosted, me: Side, m: P2pSystem.Move, hostTakes: nat)
    requires Matched(h) && Possible(h, me, Link(m, hostTakes))
    ensures HostInv(Do(h, me, Link(m, hostTakes)), Other(me))
  {
    assert HostInv(h, Other(me));
    P2pSystem.PeerRadio(h.sys, me, m);
    if IsUp(h.sys.Radio(Other(me)).state) { P2pSystem.PeerEffect(h.sys, me, m); }
  }

  lemma HostMoveInv(h: Hosted, me: Side, move: Move)
    requires Matched(h) && Possible(h, me, move) && !move.Link?
    ensures Matched(Do(h, me, move)) && Do(h, me, move).sys == h.sys
  {
    assert HostInv(h, me) && HostInv(h, Other(me));
    match move
    case Input(e) =>
      InputInv(h.At(me).line, e);
      SameRadios(h, h.With(me, h.At(me).(line := SerialInput.Step(h.At(me).line, e))), me);
    case Print(count) =>
      PrintInv(h.At(me), count);
      SameRadios(h, Do(h, me, move), me);
  }

  lemma InputInv(line: SerialInput.Line, e: SerialInput.Event)
    requires SerialInput.Inv(line) && SerialInput.Allowed(line, e) && !e.Drain?
    ensures SerialInput.Inv(SerialInput.Step(line, e)) && SerialInput.Step(line, e).drained == line.drained
  {
    SerialInput.StepInv(line, e);
  }

  /** A move of the host leaves the radios alone, and what matches a session goes on matching it. */
  lemma SameRadios(h: Hosted, h': Hosted, me: Side)
    requires Matched(h) && h'.sys == h.sys && h'.At(Other(me)) == h.At(Other(me)) && BuffersInv(h'.At(me))
    requires h'.At(me).out.given == h.At(me).out.given && h'.At(me).line.drained == h.At(me).line.drained
    requires CircularBuffer.Lossless(h.At(me).out) ==> CircularBuffer.Lossless(h'.At(me).out)
    ensures Matched(h')
  {
    assert HostInv(h, me) && HostInv(h, Other(me));
    assert HostInv(h', me) && HostInv(h', Other(me));
  }

  lemma PrintInv(h: Host, count: nat)
    requires BuffersInv(h) && count <= |h.out.queue|
    ensures var out := CircularBuffer.Through(h.out, CircularBuffer.Out(count), SERIAL_TRANSMIT_SIZE);
            && |out.queue| < SERIAL_TRANSMIT_SIZE && out.given == h.out.given
            && (CircularBuffer.Lossless(h.out) ==> CircularBuffer.Lossless(out))
  {
    if CircularBuffer.Lossless(h.out) {
      CircularBuffer.ThroughExactly(h.out, CircularBuffer.Out(count), SERIAL_TRANSMIT_SIZE);
    }
  }

  lemma LinkInv(h: Hosted, me: Side, m: P2pSystem.Move, hostTakes: nat)
    requires Matched(h) && RoomyNext(h, Event(me, Link(m, hostTakes))).Some?
    ensures Matched(Do(h, me, Link(m, hostTakes)))
  {
    var h' := Do(h, me, Link(m, hostTakes));
    P2pSystem.MoveInv(h.sys, me, m);
    P2pSystem.MoveLogs(h.sys, me, m);
    if m.Reboot? { RebootedInv(h, me, hostTakes); } else { OwnHostInv(h, me, m, hostTakes); }
    PeerHostInv(h, me, m, hostTakes);
    assert HostInv(h', me) && HostInv(h', Other(me));
  }

  lemma NextMatched(h: Hosted, e: Event)
    requires Matched(h) && RoomyNext(h, e).Some?
    ensures Matched(RoomyNext(h, e).value)
  {
    match e.move
    case Link(m, hostTakes) => LinkInv(h, e.me, m, hostTakes);
    case _ => HostMoveInv(h, e.me, e.move);
  }

  lemma NextUnreplaced(h: Hosted, e: Event)
    requires Inv(h) && CleanNext(h, e).Some?
    ensures P2pSystem.Unreplaced(CleanNext(h, e).value.sys)
  {
    match e.move
    case Link(m, hostTakes) => P2pSystem.PoliteMoveUnreplaced(h.sys, e.me, m);
    case _ => HostMoveInv(h, e.me, e.move);
  }

  lemma RunInv(h: Hosted, events: seq<Event>, h': Hosted)
    requires Inv(h) && Runs.Leads(CleanNext, h, events, h')
    ensures Inv(h')
  {
    forall g, e | Inv(g) && CleanNext(g, e).Some? ensures Inv(CleanNext(g, e).value) {
      NextMatched(g, e);
      NextUnreplaced(g, e);
    }
    Runs.Preserved(CleanNext, g => Inv(g), h, events, h');
  }

  lemma RunMatched(h: Hosted, events: seq<Event>, h': Hosted)
    requires Matched(h) && Runs.Leads(RoomyNext, h, events, h')
    ensures Matched(h')
  {
    forall g, e | Matched(g) && RoomyNext(g, e).Some? ensures Matched(RoomyNext(g, e).value) { NextMatched(g, e); }
    Runs.Preserved(RoomyNext, g => Matched(g), h, events, h');
  }

  // ---------------------------------------------------------------------
  // From host to host
  // ---------------------------------------------------------------------

  /**
   Main result.  Along every run of two radios with their hosts, from power-up,
   through loss, back pressure, handshakes, link breaks and reboots, in which no
   HEARTBEAT overwrites a message and no accepted frame overfills the output
   buffer: while a radio is up, what its host has read is a prefix of the DATA
   and command responses its peer has sent in this session; and while the peer
   is up too, the DATA among them are the beginning of what its host has sent
   since the link came up, the rest of which waits in the buffers.
   */
  lemma HostToHost(events: seq<Event>, h: Hosted, me: Side)
    requires Runs.Leads(CleanNext, INITIAL, events, h) && IsUp(h.sys.Radio(Other(me)).state)
    ensures h.sys.history != []
    ensures var k, out, line := |h.sys.history| - 1, h.At(Other(me)).out, h.At(me).line;
            && out.taken + out.queue == GotIn(h.sys.history, Other(me), k, ToHost)
            && out.taken <= SentIn(h.sys.history, me, k, ToHost)
            && (IsUp(h.sys.Radio(me).state) ==>
                  line.stream == SentIn(h.sys.history, me, k, FromHost) + line.buffer + SerialInput.Escapes(line.pending))
  {
    InitialInv();
    RunInv(INITIAL, events, h);
    Connected(h, me);
  }

  lemma Connected(h: Hosted, me: Side)
    requires Inv(h) && IsUp(h.sys.Radio(Other(me)).state)
    ensures h.sys.history != []
    ensures var k, out, line := |h.sys.history| - 1, h.At(Other(me)).out, h.At(me).line;
            && out.taken + out.queue == GotIn(h.sys.history, Other(me), k, ToHost)
            && out.taken <= SentIn(h.sys.history, me, k, ToHost)
            && (IsUp(h.sys.Radio(me).state) ==>
                  line.stream == SentIn(h.sys.history, me, k, FromHost) + line.buffer + SerialInput.Escapes(line.pending))
  {
    assert HostInv(h, me) && HostInv(h, Other(me));
    MatchingStreams(h.At(Other(me)), P2pSystem.LastEnd(h.sys, Other(me)));
    if IsUp(h.sys.Radio(me).state) { MatchingStreams(h.At(me), P2pSystem.LastEnd(h.sys, me)); }
    SessionBytes(h.sys, me, |h.sys.history| - 1, ToHost);
    var k, out := |h.sys.history| - 1, h.At(Other(me)).out;
    PrefixOf(out.taken, out.queue, SentIn(h.sys.history, me, k, ToHost));
  }

  /**
   With HEARTBEATs that overwrite messages too: what the host has read and what
   waits for it are the bytes of the messages its peer has sent in this session, in
   order and each at most once, but for messages that a HEARTBEAT replaced and at
   most the last one.
   */
  lemma HostToHostWithGaps(events: seq<Event>, h: Hosted, me: Side)
    requires Runs.Leads(RoomyNext, INITIAL, events, h) && IsUp(h.sys.Radio(Other(me)).state)
    ensures h.sys.history != []
    ensures var k, out := |h.sys.history| - 1, h.At(Other(me)).out;
            && ArrivesWithGaps(h.sys, me, k, ToHost)
            && out.taken + out.queue == GotIn(h.sys.history, Other(me), k, ToHost)
  {
    InitialInv();
    RunMatched(INITIAL, events, h);
    ConnectedWithGaps(h, me);
  }

  lemma ConnectedWithGaps(h: Hosted, me: Side)
    requires Matched(h) && IsUp(h.sys.Radio(Other(me)).state)
    ensures h.sys.history != []
    ensures var k, out := |h.sys.history| - 1, h.At(Other(me)).out;
            && ArrivesWithGaps(h.sys, me, k, ToHost)
            && out.taken + out.queue == GotIn(h.sys.history, Other(me), k, ToHost)
  {
    BuffersOfSession(h, Other(me));
    MatchedGaps(h, me);
  }

  lemma MatchedGaps(h: Hosted, me: Side)
    requires Matched(h) && h.sys.history != []
    ensures ArrivesWithGaps(h.sys, me, |h.sys.history| - 1, ToHost)
  {
    GoodGaps(h.sys, me, |h.sys.history| - 1, ToHost);
  }

  /** What the host of a radio that is up has read, and what waits for it, are the bytes accepted in the session. */
  lemma BuffersOfSession(h: Hosted, side: Side)
    requires Matched(h) && IsUp(h.sys.Radio(side).state)
    ensures h.sys.history != []
    ensures h.At(side).out.taken + h.At(side).out.queue == GotIn(h.sys.history, side, |h.sys.history| - 1, ToHost)
  {
    assert HostInv(h, side);
    MatchingStreams(h.At(side), P2pSystem.LastEnd(h.sys, side));
  }

  lemma MatchingStreams(h: Host, e: Arq.Endpoint)
    requires BuffersInv(h) && Matches(h, e)
    ensures h.out.taken + h.out.queue == Bytes(P2pSystem.Payloads(e.accepted), ToHost)
    ensures h.line.stream
            == Bytes(P2pSystem.Payloads(e.offered), FromHost) + h.line.buffer + SerialInput.Escapes(h.line.pending)
  {
  }

  lemma PrefixOf(s: seq<byte>, t: seq<byte>, whole: seq<byte>)
    requires s + t <= whole
    ensures s <= whole
  {
    assert s == whole[..|s|];
  }

  /** In a session without command responses the receiving host reads a prefix of what the sending host has sent. */
  lemma DataStream(events: seq<Event>, h: Hosted, me: Side)
    requires Runs.Leads(CleanNext, INITIAL, events, h)
    requires IsUp(h.sys.Radio(Left).state) && IsUp(h.sys.Radio(Right).state)
    requires h.sys.history != [] ==>
             forall m :: m in P2pSystem.Payloads(P2pSystem.LastEnd(h.sys, me).offered) ==> !m.RemoteCommandResponse?
    ensures h.At(Other(me)).out.taken <= h.At(me).line.stream
  {
    HostToHost(events, h, me);
    SameBytes(P2pSystem.Payloads(P2pSystem.LastEnd(h.sys, me).offered), ToHost, FromHost);
  }

  /** The guard on the buffer is exact: while the radio is up, a move keeps its host's stream whole if and only if it does not overfill. */
  lemma StreamWholeExactly(h: Hosted, me: Side, m: P2pSystem.Move, hostTakes: nat)
    requires Matched(h) && Possible(h, me, Link(m, hostTakes)) && !m.Reboot?
    requires IsUp(h.sys.Radio(me).state) && IsUp(P2pSystem.Do(h.sys, me, m).Radio(me).state)
    ensures var out' := Do(h, me, Link(m, hostTakes)).At(me).out;
            && (CircularBuffer.Lossless(out') <==> !Overfills(h, me, Link(m, hostTakes)))
            && (Overfills(h, me, Link(m, hostTakes)) ==> out'.queue == [])
  {
    assert HostInv(h, me);
    LinkGains(h, me, m, hostTakes);
    var r, r' := h.sys.Radio(me), P2pSystem.Do(h.sys, me, m).Radio(me);
    var out, got := h.At(me).out, Gained(r.host, r'.host);
    DeliverWhole(out, got, hostTakes);
    if |got| == 1 && ToHost(got[0]) {
      CircularBuffer.AcceptedFrameExactly(out, got[0].bytes, hostTakes, SERIAL_TRANSMIT_SIZE);
    }
  }
}
