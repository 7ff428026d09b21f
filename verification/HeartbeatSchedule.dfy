/**
 The hopping virtual-circuit server and its HEARTBEAT schedule: clients without a
 clock wait in channel 0, so every visit to channel 0 must carry a HEARTBEAT.
 Time advances in milliseconds; the clock wraps at 32 bits.
 */
module HeartbeatSchedule {
  import opened Basics

  const VC_DELAY_HEARTBEAT_MSEC := 5

  datatype Settings = Settings(server: bool, numberOfChannels: nat, maxDwellTime: nat, heartbeatTimeout: nat)

  /** Widths of the settings; a dwell of at least 6 ms and a timeout of at least 2 ms (the commands ask for 10 and 250). */
  predicate Proper(c: Settings) {
    && 1 <= c.numberOfChannels < 0x100
    && VC_DELAY_HEARTBEAT_MSEC < c.maxDwellTime < 0x1_0000
    && 2 <= c.heartbeatTimeout < 0x1_0000
  }

  datatype Server = Server(
    millis: nat,
    channelNumber: nat,
    channelTimerStart: nat,
    channelTimerMsec: nat,
    heartbeatTimer: nat,
    heartbeatRandomTime: nat)

  /** Conversion of an unsigned long to a long. */
  function ToLong(u: nat): int {
    if u < MILLIS / 2 then u else u - MILLIS
  }

  function MSecToChannelZero(c: Settings, s: Server): nat {
    (s.channelTimerMsec - Elapsed(s.millis, s.channelTimerStart)
     + (c.numberOfChannels - 1 - s.channelNumber) * c.maxDwellTime) % MILLIS
  }

  /** A value `random(heartbeatTimeout / 2, heartbeatTimeout)` may return. */
  predicate Drawable(c: Settings, draw: nat) {
    c.heartbeatTimeout / 2 <= draw < c.heartbeatTimeout
  }

  /** The next interval, stored in 16 bits. */
  function NextInterval(c: Settings, delta: int, draw: nat): nat {
    if !c.server || delta > 3 * c.heartbeatTimeout / 2 || delta <= 0 then draw
    else if delta >= c.heartbeatTimeout then delta / 2
    else (delta + VC_DELAY_HEARTBEAT_MSEC) % 0x1_0000
  }

  function SetHeartbeatTimer(c: Settings, s: Server, draw: nat): Server {
    s.(heartbeatTimer := s.millis, heartbeatRandomTime := NextInterval(c, ToLong(MSecToChannelZero(c, s)), draw))
  }

  /** The hop timer restarts and the radio moves to the next channel. */
  function Hop(c: Settings, s: Server): Server
    requires c.numberOfChannels > 0
  {
    s.(channelTimerStart := s.millis, channelNumber := (s.channelNumber + 1) % 0x100 % c.numberOfChannels)
  }

  function ClockAndHop(c: Settings, s: Server): Server
    requires c.numberOfChannels > 0
  {
    var t := s.(millis := (s.millis + 1) % MILLIS);
    if Elapsed(t.millis, t.channelTimerStart) >= t.channelTimerMsec then Hop(c, t) else t
  }

  predicate HeartbeatDue(s: Server) {
    Elapsed(s.millis, s.heartbeatTimer) >= s.heartbeatRandomTime
  }

  /**
   What a millisecond brings: the value `random` returns, and whether the HEARTBEAT
   of a client without a number is answered, which sends a HEARTBEAT at once.
   */
  datatype Beat = Beat(draw: nat, reply: bool)

  /** One millisecond. */
  function Tick(c: Settings, s: Server, b: Beat): Server
    requires c.numberOfChannels > 0
  {
    var t := ClockAndHop(c, s);
    if b.reply || HeartbeatDue(t) then SetHeartbeatTimer(c, t, b.draw) else t
  }

  /** The HEARTBEAT timer runs out in the next millisecond. */
  predicate RunsOut(c: Settings, s: Server)
    requires c.numberOfChannels > 0
  {
    HeartbeatDue(ClockAndHop(c, s))
  }

  /** The next millisecond starts a HEARTBEAT. */
  predicate Starts(c: Settings, s: Server, b: Beat)
    requires c.numberOfChannels > 0
  {
    b.reply || RunsOut(c, s)
  }

  /** The reset of a server: channel 0, hop timer started, first HEARTBEAT sent. */
  function Start(c: Settings, millis: nat, draw: nat): Server {
    SetHeartbeatTimer(c, Server(millis, 0, millis, c.maxDwellTime, millis, 0), draw)
  }

  /** The radio's globals. */
  class VcServer {
    const settings: Settings
    var millis: nat
    var channelNumber: nat
    var channelTimerStart: nat
    var channelTimerMsec: nat
    var heartbeatTimer: nat
    var heartbeatRandomTime: nat

    ghost function View(): Server
      reads this
    {
      Server(millis, channelNumber, channelTimerStart, channelTimerMsec, heartbeatTimer, heartbeatRandomTime)
    }

    constructor (settings: Settings, now: nat, draw: nat)
      ensures this.settings == settings && View() == Start(settings, now, draw)
    {
      this.settings := settings;
      millis, channelNumber := now, 0;
      channelTimerStart, channelTimerMsec := now, settings.maxDwellTime;
      heartbeatTimer, heartbeatRandomTime := now, 0;
      new;
      SetVcHeartbeatTimer(draw);
    }

    method MSecToZero() returns (nextChannelZeroTimeInMillis: nat)
      ensures nextChannelZeroTimeInMillis == MSecToChannelZero(settings, View())
    {
      var left := channelTimerMsec - Elapsed(millis, channelTimerStart);
      var remainingChannels := settings.numberOfChannels - 1 - channelNumber;
      if remainingChannels != 0 {
        left := left + remainingChannels * settings.maxDwellTime;
      }
      return left % MILLIS;
    }

    /** `setVcHeartbeatTimer`, given what `random` returns. */
    method SetVcHeartbeatTimer(draw: nat)
      modifies this`heartbeatTimer, this`heartbeatRandomTime
      ensures View() == SetHeartbeatTimer(settings, old(View()), draw)
    {
      heartbeatTimer := millis;
      var u := MSecToZero();
      var deltaMillis := ToLong(u);
      if !settings.server || deltaMillis > 3 * settings.heartbeatTimeout / 2 || deltaMillis <= 0 {
        heartbeatRandomTime := draw;
      } else if deltaMillis >= settings.heartbeatTimeout {
        heartbeatRandomTime := deltaMillis / 2;
      } else {
        heartbeatRandomTime := (deltaMillis + VC_DELAY_HEARTBEAT_MSEC) % 0x1_0000;
      }
    }

    /**
     A millisecond with an ideal timer and sends that succeed; `reply` says that the
     HEARTBEAT of a client without a number was received.
     */
    method Millisecond(draw: nat, reply: bool) returns (heartbeat: bool)
      requires settings.numberOfChannels > 0
      modifies this
      ensures View() == Tick(settings, old(View()), Beat(draw, reply))
      ensures heartbeat == Starts(settings, old(View()), Beat(draw, reply))
    {
      millis := (millis + 1) % MILLIS;
      if Elapsed(millis, channelTimerStart) >= channelTimerMsec {
        channelTimerStart := millis;
        channelNumber := (channelNumber + 1) % 0x100 % settings.numberOfChannels;
      }
      heartbeat := reply || Elapsed(millis, heartbeatTimer) >= heartbeatRandomTime;
      if heartbeat {
        SetVcHeartbeatTimer(draw);
      }
    }
  }

  // ---------------------------------------------------------------------
  // The hop sequence
  // ---------------------------------------------------------------------

  function Cycle(c: Settings): nat {
    c.numberOfChannels * c.maxDwellTime
  }

  /** Time since the last arrival in channel 0. */
  function Position(c: Settings, s: Server): nat {
    s.channelNumber * c.maxDwellTime + Elapsed(s.millis, s.channelTimerStart)
  }

  predicate Hopping(c: Settings, s: Server) {
    && s.millis < MILLIS && s.channelTimerStart < MILLIS
    && s.channelNumber < c.numberOfChannels
    && s.channelTimerMsec == c.maxDwellTime
    && Elapsed(s.millis, s.channelTimerStart) < c.maxDwellTime
  }

  lemma Times(a: nat, b: nat, d: nat)
    requires a <= b
    ensures a * d <= b * d && (a + 1) * d == a * d + d
  {
    assert b * d == a * d + (b - a) * d;
  }

  lemma CycleIsSmall(c: Settings)
    requires Proper(c)
    ensures VC_DELAY_HEARTBEAT_MSEC < c.maxDwellTime <= Cycle(c) < MILLIS / 2
  {
    Times(c.numberOfChannels, 0xff, c.maxDwellTime);
    Times(1, c.numberOfChannels, c.maxDwellTime);
  }

  lemma Left(n: nat, d: nat, k: nat)
    requires k < n
    ensures (n - 1 - k) * d == n * d - d - k * d && (n - 1 - k) * d >= 0 && k * d >= 0
  {
  }

  lemma Remaining(c: Settings, s: Server)
    requires Proper(c) && Hopping(c, s)
    ensures 0 <= Position(c, s) < Cycle(c)
    ensures MSecToChannelZero(c, s) == Cycle(c) - Position(c, s)
    ensures ToLong(MSecToChannelZero(c, s)) == Cycle(c) - Position(c, s)
  {
    CycleIsSmall(c);
    Left(c.numberOfChannels, c.maxDwellTime, s.channelNumber);
  }

  lemma OneMore(now: nat, since: nat)
    requires now < MILLIS && since < MILLIS && Elapsed(now, since) + 1 < MILLIS
    ensures Elapsed((now + 1) % MILLIS, since) == Elapsed(now, since) + 1
  {
  }

  lemma AlongCycle(n: nat, d: nat, k: nat, e: nat)
    requires k < n && e < d
    ensures e + 1 < d ==> k * d + e + 1 < n * d
    ensures e + 1 == d ==> k * d + e + 1 == (k + 1) * d && (k + 1) * d <= n * d && (k + 1 < n ==> (k + 1) * d < n * d)
  {
    Times(k, n, d);
    Times(k + 1, n, d);
    if k + 1 < n { Times(k + 2, n, d); Times(k + 1, k + 2, d); }
  }

  lemma NextChannel(n: nat, k: nat)
    requires k < n
    ensures (k + 1) % n == if k + 1 == n then 0 else k + 1
  {
  }

  lemma NextPosition(c: Settings, s: Server, t: Server)
    requires Proper(c) && Hopping(c, s) && Hopping(c, t)
    requires if Elapsed(s.millis, s.channelTimerStart) + 1 < c.maxDwellTime
             then t.channelNumber == s.channelNumber && Elapsed(t.millis, t.channelTimerStart) == Elapsed(s.millis, s.channelTimerStart) + 1
             else t.channelNumber == (s.channelNumber + 1) % c.numberOfChannels && Elapsed(t.millis, t.channelTimerStart) == 0
    ensures Position(c, t) == if Position(c, s) + 1 == Cycle(c) then 0 else Position(c, s) + 1
  {
    NextChannel(c.numberOfChannels, s.channelNumber);
    AlongCycle(c.numberOfChannels, c.maxDwellTime, s.channelNumber, Elapsed(s.millis, s.channelTimerStart));
  }

  /** A millisecond moves the position on by one, around the cycle. */
  lemma Advance(c: Settings, s: Server, b: Beat)
    requires Proper(c) && Hopping(c, s)
    ensures var t := Tick(c, s, b);
            && Hopping(c, t)
            && Position(c, t) == (if Position(c, s) + 1 == Cycle(c) then 0 else Position(c, s) + 1)
            && Position(c, ClockAndHop(c, s)) == Position(c, t) && Hopping(c, ClockAndHop(c, s))
  {
    HopOrStay(c, s);
    NextPosition(c, s, ClockAndHop(c, s));
    SamePosition(c, ClockAndHop(c, s), Tick(c, s, b));
  }

  lemma HopOrStay(c: Settings, s: Server)
    requires Proper(c) && Hopping(c, s)
    ensures var t := ClockAndHop(c, s);
            && Hopping(c, t)
            && if Elapsed(s.millis, s.channelTimerStart) + 1 < c.maxDwellTime
               then t.channelNumber == s.channelNumber && Elapsed(t.millis, t.channelTimerStart) == Elapsed(s.millis, s.channelTimerStart) + 1
               else t.channelNumber == (s.channelNumber + 1) % c.numberOfChannels && Elapsed(t.millis, t.channelTimerStart) == 0
  {
    OneMore(s.millis, s.channelTimerStart);
  }

  /** The HEARTBEAT timer has no part in the position. */
  lemma SamePosition(c: Settings, s: Server, t: Server)
    requires t == s.(heartbeatTimer := t.heartbeatTimer, heartbeatRandomTime := t.heartbeatRandomTime)
    ensures Hopping(c, t) == Hopping(c, s) && Position(c, t) == Position(c, s)
  {
  }

  /** The state after a run of milliseconds. */
  function After(c: Settings, s: Server, beats: seq<Beat>): Server
    requires c.numberOfChannels > 0
  {
    if beats == [] then s
    else Tick(c, After(c, s, beats[..|beats| - 1]), beats[|beats| - 1])
  }

  predicate AtChannelZero(c: Settings, s: Server) {
    s.channelNumber == 0 && Elapsed(s.millis, s.channelTimerStart) == 0
  }

  lemma PositionZero(c: Settings, s: Server)
    requires Proper(c) && Hopping(c, s)
    ensures AtChannelZero(c, s) <==> Position(c, s) == 0
  {
    if s.channelNumber > 0 { Times(1, s.channelNumber, c.maxDwellTime); }
  }

  lemma {:induction false} PositionAfter(c: Settings, s: Server, beats: seq<Beat>)
    requires Proper(c) && Hopping(c, s)
    ensures Hopping(c, After(c, s, beats))
    ensures Position(c, s) + |beats| < Cycle(c) ==> Position(c, After(c, s, beats)) == Position(c, s) + |beats|
    ensures Position(c, s) + |beats| == Cycle(c) && |beats| > 0 ==> Position(c, After(c, s, beats)) == 0
  {
    if beats != [] {
      var most := beats[..|beats| - 1];
      PositionAfter(c, s, most);
      Advance(c, After(c, s, most), beats[|beats| - 1]);
    }
  }

  /** `mSecToChannelZero` is the time at which the hop sequence next arrives in channel 0, whatever the random delays and answers. */
  lemma MSecToChannelZeroIsArrival(c: Settings, s: Server, beats: seq<Beat>)
    requires Proper(c) && Hopping(c, s) && 0 < |beats| <= MSecToChannelZero(c, s)
    ensures AtChannelZero(c, After(c, s, beats)) <==> |beats| == MSecToChannelZero(c, s)
  {
    Remaining(c, s);
    PositionAfter(c, s, beats);
    PositionZero(c, After(c, s, beats));
  }

  // ---------------------------------------------------------------------
  // The schedule
  // ---------------------------------------------------------------------

  /** Time until the next HEARTBEAT. */
  function Due(s: Server): int {
    if s.heartbeatRandomTime == 0 then 1 else s.heartbeatRandomTime - Elapsed(s.millis, s.heartbeatTimer)
  }

  /** The next HEARTBEAT comes 5 ms after the next arrival in channel 0, or before that arrival, or 5 ms after the last one. */
  predicate Scheduled(c: Settings, s: Server) {
    var left := Cycle(c) - Position(c, s);
    || Due(s) == left + VC_DELAY_HEARTBEAT_MSEC
    || Due(s) < left
    || (Position(c, s) < VC_DELAY_HEARTBEAT_MSEC && Due(s) == VC_DELAY_HEARTBEAT_MSEC - Position(c, s))
  }

  predicate Inv(c: Settings, s: Server) {
    && Hopping(c, s)
    && s.heartbeatTimer < MILLIS
    && s.heartbeatRandomTime <= c.heartbeatTimeout + 4
    && (s.heartbeatRandomTime == 0 ==> Elapsed(s.millis, s.heartbeatTimer) == 0)
    && 1 <= Due(s)
    && Scheduled(c, s)
  }

  lemma SetInv(c: Settings, s: Server, draw: nat)
    requires Proper(c) && c.server && Hopping(c, s) && Drawable(c, draw)
    ensures Inv(c, SetHeartbeatTimer(c, s, draw))
  {
    Remaining(c, s);
  }

  /** Each millisecond keeps the schedule, and the timer runs out exactly when a HEARTBEAT is due. */
  lemma TickInv(c: Settings, s: Server, b: Beat)
    requires Proper(c) && c.server && Inv(c, s) && Drawable(c, b.draw)
    ensures Inv(c, Tick(c, s, b))
    ensures RunsOut(c, s) <==> Due(s) == 1
    ensures !Starts(c, s, b) ==> Due(Tick(c, s, b)) == Due(s) - 1
  {
    Advance(c, s, b);
    CycleIsSmall(c);
    OneMore(s.millis, s.heartbeatTimer);
    var t := ClockAndHop(c, s);
    if b.reply || HeartbeatDue(t) {
      SetInv(c, t, b.draw);
    }
  }

  predicate AllDrawable(c: Settings, beats: seq<Beat>) {
    forall k :: 0 <= k < |beats| ==> Drawable(c, beats[k].draw)
  }

  predicate NoReply(beats: seq<Beat>) {
    forall k :: 0 <= k < |beats| ==> !beats[k].reply
  }

  lemma {:induction false} RunInv(c: Settings, s: Server, beats: seq<Beat>)
    requires Proper(c) && c.server && Inv(c, s) && AllDrawable(c, beats)
    ensures Inv(c, After(c, s, beats))
  {
    if beats != [] {
      RunInv(c, s, beats[..|beats| - 1]);
      TickInv(c, After(c, s, beats[..|beats| - 1]), beats[|beats| - 1]);
    }
  }

  /** While no HEARTBEAT is due and nothing is answered the wait only shortens. */
  lemma {:induction false} Countdown(c: Settings, s: Server, beats: seq<Beat>)
    requires Proper(c) && c.server && Inv(c, s) && AllDrawable(c, beats) && NoReply(beats) && |beats| < Due(s)
    ensures Inv(c, After(c, s, beats)) && Due(After(c, s, beats)) == Due(s) - |beats|
    ensures RunsOut(c, After(c, s, beats)) <==> |beats| == Due(s) - 1
  {
    if beats != [] {
      var most := beats[..|beats| - 1];
      Countdown(c, s, most);
      TickInv(c, After(c, s, most), beats[|beats| - 1]);
    }
    TickInv(c, After(c, s, beats), Beat(c.heartbeatTimeout / 2, false));
  }

  lemma StartInv(c: Settings, millis: nat, draw: nat)
    requires Proper(c) && c.server && millis < MILLIS && Drawable(c, draw)
    ensures Inv(c, Start(c, millis, draw)) && Position(c, Start(c, millis, draw)) == 0
  {
    CycleIsSmall(c);
    SetInv(c, Server(millis, 0, millis, c.maxDwellTime, millis, 0), draw);
  }

  /** A run from the reset of a server, up to the millisecond before an arrival in channel 0. */
  predicate Arriving(c: Settings, millis: nat, draw: nat, beats: seq<Beat>) {
    && Proper(c) && c.server && millis < MILLIS && Drawable(c, draw) && AllDrawable(c, beats)
    && AtChannelZero(c, ClockAndHop(c, After(c, Start(c, millis, draw), beats)))
  }

  /** Just before an arrival the next HEARTBEAT is due 5 ms after it. */
  lemma ArrivalIsScheduled(c: Settings, millis: nat, draw: nat, beats: seq<Beat>)
    requires Arriving(c, millis, draw, beats)
    ensures var s := After(c, Start(c, millis, draw), beats);
            Inv(c, s) && Position(c, s) == Cycle(c) - 1 && Due(s) == VC_DELAY_HEARTBEAT_MSEC + 1
  {
    StartInv(c, millis, draw);
    RunInv(c, Start(c, millis, draw), beats);
    var s := After(c, Start(c, millis, draw), beats);
    CycleIsSmall(c);
    Advance(c, s, Beat(draw, false));
    PositionZero(c, ClockAndHop(c, s));
  }

  /** The first milliseconds of the visit, from that of the arrival on, whatever is answered in them. */
  predicate Visit(c: Settings, visit: seq<Beat>) {
    |visit| == VC_DELAY_HEARTBEAT_MSEC + 1 && AllDrawable(c, visit)
  }

  /** Millisecond k of a visit is spent in channel 0, k ms after the arrival. */
  lemma InVisit(c: Settings, s: Server, visit: seq<Beat>, k: nat)
    requires Proper(c) && Hopping(c, s) && Position(c, s) == Cycle(c) - 1 && k <= VC_DELAY_HEARTBEAT_MSEC && k <= |visit|
    ensures var t := ClockAndHop(c, After(c, s, visit[..k]));
            t.channelNumber == 0 && Elapsed(t.millis, t.channelTimerStart) == k
  {
    CycleIsSmall(c);
    PositionFromArrival(c, s, visit[..k]);
    var b := Beat(0, false);
    Advance(c, After(c, s, visit[..k]), b);
    InChannelZero(c, ClockAndHop(c, After(c, s, visit[..k])));
  }

  lemma {:induction false} PositionFromArrival(c: Settings, s: Server, beats: seq<Beat>)
    requires Proper(c) && Hopping(c, s) && Position(c, s) == Cycle(c) - 1 && |beats| <= VC_DELAY_HEARTBEAT_MSEC
    ensures Hopping(c, After(c, s, beats))
    ensures Position(c, After(c, s, beats)) == if beats == [] then Cycle(c) - 1 else |beats| - 1
  {
    CycleIsSmall(c);
    if beats != [] {
      var most := beats[..|beats| - 1];
      PositionFromArrival(c, s, most);
      Advance(c, After(c, s, most), beats[|beats| - 1]);
    }
  }

  /** Millisecond k of the visit starts a HEARTBEAT, and none before does. */
  predicate FirstStart(c: Settings, s: Server, visit: seq<Beat>, k: nat)
    requires c.numberOfChannels > 0 && k < |visit|
  {
    && Starts(c, After(c, s, visit[..k]), visit[k])
    && forall j :: 0 <= j < k ==> !Starts(c, After(c, s, visit[..j]), visit[j])
  }

  lemma FirstReply(beats: seq<Beat>, limit: nat) returns (k: nat)
    requires limit <= |beats|
    ensures k <= limit && NoReply(beats[..k])
    ensures k < limit ==> beats[k].reply
  {
    k := 0;
    while k < limit && !beats[k].reply
      invariant k <= limit && NoReply(beats[..k])
    {
      k := k + 1;
    }
  }

  /** Up to the first answer the timer runs as scheduled. */
  lemma BeforeReply(c: Settings, s: Server, beats: seq<Beat>, k: nat)
    requires Proper(c) && c.server && Inv(c, s) && AllDrawable(c, beats)
    requires k <= |beats| && NoReply(beats[..k]) && k < Due(s)
    ensures RunsOut(c, After(c, s, beats[..k])) <==> k == Due(s) - 1
  {
    Countdown(c, s, beats[..k]);
  }

  lemma FirstOfVisit(c: Settings, s: Server, visit: seq<Beat>) returns (k: nat)
    requires Proper(c) && c.server && Inv(c, s) && Due(s) == VC_DELAY_HEARTBEAT_MSEC + 1 && Visit(c, visit)
    ensures k <= VC_DELAY_HEARTBEAT_MSEC && FirstStart(c, s, visit, k)
    ensures k == VC_DELAY_HEARTBEAT_MSEC <==> NoReply(visit[..VC_DELAY_HEARTBEAT_MSEC])
  {
    k := FirstReply(visit, VC_DELAY_HEARTBEAT_MSEC);
    BeforeReply(c, s, visit, k);
    forall j | 0 <= j < k ensures !Starts(c, After(c, s, visit[..j]), visit[j]) {
      assert visit[..k][j] == visit[j];
      BeforeReply(c, s, visit, j);
    }
  }

  /**
   Main result.  From a reset at any clock reading, for every choice of the random
   delays and every pattern of answers: each visit to channel 0 has a HEARTBEAT
   started in channel 0 by its fifth millisecond, and the first one starts exactly
   then if and only if nothing was answered earlier in the visit.
   */
  lemma ChannelZeroHeartbeat(c: Settings, millis: nat, draw: nat, beats: seq<Beat>, visit: seq<Beat>) returns (k: nat)
    requires Arriving(c, millis, draw, beats) && Visit(c, visit)
    ensures var s := After(c, Start(c, millis, draw), beats);
            && k <= VC_DELAY_HEARTBEAT_MSEC && FirstStart(c, s, visit, k)
            && (k == VC_DELAY_HEARTBEAT_MSEC <==> NoReply(visit[..VC_DELAY_HEARTBEAT_MSEC]))
            && ClockAndHop(c, After(c, s, visit[..k])).channelNumber == 0
            && Elapsed(ClockAndHop(c, After(c, s, visit[..k])).millis, ClockAndHop(c, After(c, s, visit[..k])).channelTimerStart) == k
  {
    ArrivalIsScheduled(c, millis, draw, beats);
    var s := After(c, Start(c, millis, draw), beats);
    k := FirstOfVisit(c, s, visit);
    InVisit(c, s, visit, k);
  }

  /**
   For timeouts from 12 to 65531 ms: the timer itself runs out 5 ms after the
   arrival if and only if nothing was answered in the visit before.
   */
  lemma TimerAtFive(c: Settings, millis: nat, draw: nat, beats: seq<Beat>, visit: seq<Beat>)
    requires Arriving(c, millis, draw, beats) && Visit(c, visit) && 12 <= c.heartbeatTimeout <= 65531
    ensures var s := After(c, Start(c, millis, draw), beats);
            RunsOut(c, After(c, s, visit[..VC_DELAY_HEARTBEAT_MSEC])) <==> NoReply(visit[..VC_DELAY_HEARTBEAT_MSEC])
  {
    var s := After(c, Start(c, millis, draw), beats);
    ArrivalIsScheduled(c, millis, draw, beats);
    var five := visit[..VC_DELAY_HEARTBEAT_MSEC];
    if NoReply(five) {
      Countdown(c, s, five);
    } else {
      var r :| 0 <= r < VC_DELAY_HEARTBEAT_MSEC && five[r].reply;
      ReplyDelays(c, s, five, r);
      RunInv(c, s, five);
      TickInv(c, After(c, s, five), visit[VC_DELAY_HEARTBEAT_MSEC]);
    }
  }

  /** An answer in millisecond r of the visit postpones the next HEARTBEAT beyond the fifth. */
  lemma {:induction false} ReplyDelays(c: Settings, s: Server, visit: seq<Beat>, r: nat)
    requires Proper(c) && c.server && 12 <= c.heartbeatTimeout <= 65531 && AllDrawable(c, visit)
    requires Inv(c, s) && Position(c, s) == Cycle(c) - 1 && r < |visit| <= VC_DELAY_HEARTBEAT_MSEC && visit[r].reply
    ensures Due(After(c, s, visit)) > VC_DELAY_HEARTBEAT_MSEC + 1 - |visit|
    decreases |visit|
  {
    var last := |visit| - 1;
    var most, b := visit[..last], visit[last];
    if b.reply {
      AfterReply(c, s, most, b);
    } else {
      ReplyDelays(c, s, most, r);
      RunInv(c, s, most);
      Shortens(c, After(c, s, most), b, VC_DELAY_HEARTBEAT_MSEC + 1 - last);
    }
  }

  lemma Shortens(c: Settings, s: Server, b: Beat, least: nat)
    requires Proper(c) && c.server && Inv(c, s) && Drawable(c, b.draw) && !b.reply && Due(s) > least > 0
    ensures Due(Tick(c, s, b)) > least - 1
  {
    TickInv(c, s, b);
  }

  lemma AfterReply(c: Settings, s: Server, most: seq<Beat>, b: Beat)
    requires Proper(c) && c.server && 12 <= c.heartbeatTimeout <= 65531 && Drawable(c, b.draw) && b.reply
    requires Hopping(c, s) && Position(c, s) == Cycle(c) - 1 && |most| < VC_DELAY_HEARTBEAT_MSEC
    ensures Due(Tick(c, After(c, s, most), b)) > VC_DELAY_HEARTBEAT_MSEC - |most|
  {
    CycleIsSmall(c);
    PositionFromArrival(c, s, most);
    Advance(c, After(c, s, most), b);
    ReplyInterval(c, ClockAndHop(c, After(c, s, most)), b.draw);
  }

  lemma ReplyInterval(c: Settings, s: Server, draw: nat)
    requires Proper(c) && Hopping(c, s) && 12 <= c.heartbeatTimeout <= 65531 && Drawable(c, draw)
    requires Position(c, s) < VC_DELAY_HEARTBEAT_MSEC
    ensures Due(SetHeartbeatTimer(c, s, draw)) > VC_DELAY_HEARTBEAT_MSEC - Position(c, s)
  {
    CycleIsSmall(c);
    Remaining(c, s);
  }

  /** `count` milliseconds in which nothing is answered. */
  function Unanswered(c: Settings, count: nat): (beats: seq<Beat>)
    ensures |beats| == count && NoReply(beats)
    ensures forall k :: 0 <= k < count ==> beats[k].draw == c.heartbeatTimeout / 2
  {
    seq(count, _ => Beat(c.heartbeatTimeout / 2, false))
  }

  /** Such a visit happens: an answer in the millisecond of the first arrival, and then no HEARTBEAT for 5 ms. */
  lemma AnswerAtArrival(c: Settings, millis: nat, draw: nat) returns (beats: seq<Beat>, visit: seq<Beat>)
    requires Proper(c) && c.server && 12 <= c.heartbeatTimeout <= 65531 && millis < MILLIS && Drawable(c, draw)
    ensures Arriving(c, millis, draw, beats) && Visit(c, visit) && visit[0].reply
    ensures forall k :: 0 < k <= VC_DELAY_HEARTBEAT_MSEC ==>
      !Starts(c, After(c, After(c, Start(c, millis, draw), beats), visit[..k]), visit[k])
  {
    CycleIsSmall(c);
    StartInv(c, millis, draw);
    var start := Start(c, millis, draw);
    beats := Unanswered(c, Cycle(c) - 1);
    PositionAfter(c, start, beats);
    var s := After(c, start, beats);
    Advance(c, s, Beat(draw, false));
    PositionZero(c, ClockAndHop(c, s));
    ArrivalIsScheduled(c, millis, draw, beats);
    visit := [Beat(c.heartbeatTimeout / 2, true)] + Unanswered(c, VC_DELAY_HEARTBEAT_MSEC);
    forall k | 0 < k <= VC_DELAY_HEARTBEAT_MSEC ensures !Starts(c, After(c, s, visit[..k]), visit[k]) {
      ReplyDelays(c, s, visit[..k], 0);
      RunInv(c, s, visit[..k]);
      TickInv(c, After(c, s, visit[..k]), visit[k]);
    }
  }

  lemma InChannelZero(c: Settings, s: Server)
    requires Proper(c) && Hopping(c, s) && Position(c, s) <= VC_DELAY_HEARTBEAT_MSEC
    ensures s.channelNumber == 0 && Elapsed(s.millis, s.channelTimerStart) == Position(c, s)
  {
    CycleIsSmall(c);
    if s.channelNumber > 0 { Times(1, s.channelNumber, c.maxDwellTime); }
  }

  /** From any moment of any run the next HEARTBEAT starts within heartbeatTimeout + 4 ms, whatever is answered. */
  lemma HeartbeatGap(c: Settings, millis: nat, draw: nat, beats: seq<Beat>, more: seq<Beat>) returns (wait: nat)
    requires Proper(c) && c.server && millis < MILLIS && Drawable(c, draw)
    requires AllDrawable(c, beats) && AllDrawable(c, more) && |more| == c.heartbeatTimeout + 4
    ensures wait < c.heartbeatTimeout + 4
    ensures Starts(c, After(c, After(c, Start(c, millis, draw), beats), more[..wait]), more[wait])
  {
    StartInv(c, millis, draw);
    RunInv(c, Start(c, millis, draw), beats);
    var s := After(c, Start(c, millis, draw), beats);
    wait := FirstReply(more, Due(s) - 1);
    BeforeReply(c, s, more, wait);
  }
}
