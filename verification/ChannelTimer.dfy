/**
 Phase lock of the hop timers: `syncChannelTimer` sets the local timer from a
 received frame and the timer interrupt then restores the full dwell interval.
 All quantities are milliseconds; the firmware computes in 16 bits.
 */
module ChannelTimer {

  const REMOTE_SYSTEM_LIKELY_TO_HOP_MSEC := 2

  type Int16 = x: int | -0x8000 <= x < 0x8000

  function ToInt16(x: int): (r: Int16)
    ensures -0x8000 <= x < 0x8000 ==> r == x
    ensures 0x8000 <= x < 0x1_8000 ==> r == x - 0x1_0000
    ensures -0x1_8000 <= x < -0x8000 ==> r == x + 0x1_0000
  {
    (x + 0x8000) % 0x1_0000 - 0x8000
  }

  /** Values of the MaxDwellTime setting. */
  type Dwell = d: int | 10 <= d < 0x1_0000 witness 10

  // ---------------------------------------------------------------------
  // The adjustment loop
  // ---------------------------------------------------------------------

  /** Adding the dwell time in 16 bits from `x` reaches a positive value. */
  predicate LoopEnds(x: Int16, dwell: Dwell) {
    dwell == 0x8000 ==> x != 0 && x != -0x8000
  }

  function Distance(x: Int16, dwell: Dwell): nat {
    if x > 0 then 0 else if dwell <= 0x8000 then 1 - x else x + 0x8001
  }

  lemma OneRound(x: Int16, dwell: Dwell)
    requires LoopEnds(x, dwell) && x <= 0
    ensures LoopEnds(ToInt16(x + dwell), dwell) && Distance(ToInt16(x + dwell), dwell) < Distance(x, dwell)
  {
  }

  /** The value with which the loop ends. */
  function Extend(x: Int16, dwell: Dwell): (m: Int16)
    requires LoopEnds(x, dwell)
    ensures m > 0
    decreases Distance(x, dwell)
  {
    if x > 0 then x else Extend(ToInt16(x + dwell), dwell)
  }

  /** n rounds of the loop body. */
  function Rounds(x: Int16, dwell: Dwell, n: nat): Int16 {
    if n == 0 then x else ToInt16(Rounds(x, dwell, n - 1) + dwell)
  }

  lemma {:induction false} ReachesPositive(x: Int16, dwell: Dwell) returns (n: nat)
    requires LoopEnds(x, dwell)
    ensures Rounds(x, dwell, n) == Extend(x, dwell)
    decreases Distance(x, dwell)
  {
    if x > 0 { return 0; }
    var k := ReachesPositive(ToInt16(x + dwell), dwell);
    RoundsFromNext(x, dwell, k);
    n := k + 1;
  }

  lemma {:induction false} RoundsFromNext(x: Int16, dwell: Dwell, n: nat)
    ensures Rounds(ToInt16(x + dwell), dwell, n) == Rounds(x, dwell, n + 1)
  {
    if n > 0 { RoundsFromNext(x, dwell, n - 1); }
  }

  lemma {:induction false} StuckForever(x: Int16, n: nat)
    requires x == 0 || x == -0x8000
    ensures Rounds(x, 0x8000, n) == 0 || Rounds(x, 0x8000, n) == -0x8000
  {
    if n > 0 { StuckForever(x, n - 1); }
  }

  /** The loop terminates exactly when the dwell time is not 32768 or the start value is neither 0 nor -32768. */
  lemma TerminatesExactly(x: Int16, dwell: Dwell)
    ensures LoopEnds(x, dwell) <==> exists n: nat :: Rounds(x, dwell, n) > 0
  {
    if LoopEnds(x, dwell) {
      var n := ReachesPositive(x, dwell);
    } else {
      forall n: nat ensures Rounds(x, dwell, n) <= 0 { StuckForever(x, n); }
    }
  }

  // ---------------------------------------------------------------------
  // syncChannelTimer and the timer interrupt
  // ---------------------------------------------------------------------

  /** Time to the remote radio's hop, as the firmware computes it. */
  function RemoteHop(msToNextHopRemote: Int16, frameAirTime: nat): Int16 {
    ToInt16(msToNextHopRemote - frameAirTime)
  }

  /** The value entering the loop. */
  function BeforeLoop(rmtHopTime: Int16, dwell: Dwell): Int16 {
    if rmtHopTime <= REMOTE_SYSTEM_LIKELY_TO_HOP_MSEC then ToInt16(rmtHopTime + ToInt16(dwell)) else rmtHopTime
  }

  function MsToNextHop(rmtHopTime: Int16, dwell: Dwell): (m: Int16)
    requires LoopEnds(BeforeLoop(rmtHopTime, dwell), dwell)
    ensures m > 0
  {
    Extend(BeforeLoop(rmtHopTime, dwell), dwell)
  }

  /** The hop timer: when it was started or last fired, the interval now loaded, and whether the interrupt restores the dwell. */
  datatype Timer = Timer(start: int, msec: int, reload: bool)
  {
    function NextFiring(): int {
      start + msec
    }
  }

  /** `channelTimerHandler` at the instant the timer fires. */
  function Fired(t: Timer, dwell: Dwell): Timer {
    if t.reload then Timer(t.NextFiring(), dwell, false) else t.(start := t.NextFiring())
  }

  function FiredTimes(t: Timer, dwell: Dwell, k: nat): Timer {
    if k == 0 then t else Fired(FiredTimes(t, dwell, k - 1), dwell)
  }

  class HopTimer {
    const maxDwellTime: Dwell
    var channelTimerStart: int
    var channelTimerMsec: int
    var reloadChannelTimer: bool

    ghost function View(): Timer
      reads this
    {
      Timer(channelTimerStart, channelTimerMsec, reloadChannelTimer)
    }

    constructor (dwell: Dwell, now: int)
      ensures maxDwellTime == dwell && View() == Timer(now, dwell, false)
    {
      maxDwellTime := dwell;
      channelTimerStart, channelTimerMsec, reloadChannelTimer := now, dwell, false;
    }

    /** `syncChannelTimer`, for a clock receiver that hops. */
    method SyncChannelTimer(currentMillis: int, msToNextHopRemote: Int16, frameAirTimeMsec: nat)
      requires LoopEnds(BeforeLoop(RemoteHop(msToNextHopRemote, frameAirTimeMsec), maxDwellTime), maxDwellTime)
      modifies this
      ensures View() == Timer(currentMillis, MsToNextHop(RemoteHop(msToNextHopRemote, frameAirTimeMsec), maxDwellTime), true)
    {
      var rmtHopTimeMsec := ToInt16(msToNextHopRemote - frameAirTimeMsec);
      var adjustment: Int16 := 0;
      if rmtHopTimeMsec <= REMOTE_SYSTEM_LIKELY_TO_HOP_MSEC {
        adjustment := ToInt16(adjustment + maxDwellTime);
      }
      var msToNextHop: Int16 := ToInt16(rmtHopTimeMsec + adjustment);
      while msToNextHop <= 0
        invariant LoopEnds(msToNextHop, maxDwellTime)
        invariant Extend(msToNextHop, maxDwellTime) == MsToNextHop(RemoteHop(msToNextHopRemote, frameAirTimeMsec), maxDwellTime)
        decreases Distance(msToNextHop, maxDwellTime)
      {
        OneRound(msToNextHop, maxDwellTime);
        msToNextHop := ToInt16(msToNextHop + maxDwellTime);
      }
      reloadChannelTimer := true;
      channelTimerStart := currentMillis;
      channelTimerMsec := msToNextHop;
    }

    /** `channelTimerHandler`. */
    method ChannelTimerHandler()
      modifies this
      ensures View() == Fired(old(View()), maxDwellTime)
    {
      channelTimerStart := channelTimerStart + channelTimerMsec;
      if reloadChannelTimer {
        reloadChannelTimer := false;
        channelTimerMsec := maxDwellTime;
      }
    }
  }

  // ---------------------------------------------------------------------
  // Phase lock
  // ---------------------------------------------------------------------

  ghost predicate Congruent(a: int, b: int, dwell: Dwell) {
    exists j: int :: a == b + j * dwell
  }

  /** The interval is usable and points at one of the remote's hops. */
  ghost predicate OnRemoteHop(rmtHopTime: int, m: int, dwell: Dwell) {
    0 < m <= dwell + REMOTE_SYSTEM_LIKELY_TO_HOP_MSEC && Congruent(m, rmtHopTime, dwell)
  }

  lemma {:induction false} ExtendIsExact(x: Int16, dwell: Dwell)
    requires dwell < 0x8000
    ensures Congruent(Extend(x, dwell), x, dwell)
    ensures x <= 0 ==> Extend(x, dwell) <= dwell
    decreases Distance(x, dwell)
  {
    if x > 0 {
      assert x == x + 0 * dwell;
    } else {
      ExtendIsExact(x + dwell, dwell);
      var j: int :| Extend(x, dwell) == x + dwell + j * dwell;
      OneMoreDwell(j, dwell);
      assert Extend(x, dwell) == x + (j + 1) * dwell;
    }
  }

  lemma OneMoreDwell(j: int, dwell: int)
    ensures (j + 1) * dwell == j * dwell + dwell
  {
  }

  /** The dwell time is small enough for the 16-bit sum of this call. */
  predicate SumFits(rmtHopTime: Int16, dwell: Dwell) {
    rmtHopTime > REMOTE_SYSTEM_LIKELY_TO_HOP_MSEC || rmtHopTime + dwell < 0x8000
  }

  lemma FitsIsEnough(rmtHopTime: Int16, dwell: Dwell)
    requires dwell < 0x8000 && rmtHopTime <= dwell && SumFits(rmtHopTime, dwell)
    ensures OnRemoteHop(rmtHopTime, MsToNextHop(rmtHopTime, dwell), dwell)
  {
    var x := BeforeLoop(rmtHopTime, dwell);
    ExtendIsExact(x, dwell);
    var j: int :| Extend(x, dwell) == x + j * dwell;
    OneMoreDwell(j, dwell);
    assert Extend(x, dwell) == rmtHopTime + j * dwell || Extend(x, dwell) == rmtHopTime + (j + 1) * dwell;
  }

  /** The three sums that overflow for a dwell below 32768 end off the remote's hops. */
  lemma OverflowMisses(rmtHopTime: Int16, dwell: Dwell)
    requires dwell < 0x8000 && !SumFits(rmtHopTime, dwell)
    ensures !OnRemoteHop(rmtHopTime, MsToNextHop(rmtHopTime, dwell), dwell)
  {
    var m := MsToNextHop(rmtHopTime, dwell);
    assert (dwell == 0x7FFE && rmtHopTime == 2) || (dwell == 0x7FFF && (rmtHopTime == 1 || rmtHopTime == 2));
    var x := BeforeLoop(rmtHopTime, dwell);
    assert x == rmtHopTime + dwell - 0x1_0000;
    assert ToInt16(x + dwell) == rmtHopTime + 2 * dwell - 0x1_0000;
    if Congruent(m, rmtHopTime, dwell) {
      var j: int :| m == rmtHopTime + j * dwell;
      Multiple(j, dwell);
    }
  }

  lemma Multiple(j: int, dwell: Dwell)
    ensures j * dwell >= dwell <==> j >= 1
    ensures j * dwell + dwell <= 0 <==> j <= -1
  {
    if j >= 1 { assert j * dwell == dwell + (j - 1) * dwell; }
    if j <= -1 { assert j * dwell + dwell == (j + 1) * dwell; }
  }

  /** One call with a dwell below 32768 points at a remote hop if and only if its sum fits 16 bits. */
  lemma SyncExactly(rmtHopTime: Int16, dwell: Dwell)
    requires dwell < 0x8000 && rmtHopTime <= dwell
    ensures OnRemoteHop(rmtHopTime, MsToNextHop(rmtHopTime, dwell), dwell) <==> SumFits(rmtHopTime, dwell)
  {
    if SumFits(rmtHopTime, dwell) { FitsIsEnough(rmtHopTime, dwell); } else { OverflowMisses(rmtHopTime, dwell); }
  }

  /** A frame whose hop time and age keep the remote hop in 16 bits. */
  predicate InRange(msToNextHopRemote: int, frameAirTime: nat, dwell: Dwell) {
    0 <= msToNextHopRemote <= dwell && msToNextHopRemote < 0x8000 && msToNextHopRemote - frameAirTime >= -0x8000
  }

  /** The call ends and sets an interval that points at a remote hop. */
  ghost predicate SyncWorks(msToNextHopRemote: Int16, frameAirTime: nat, dwell: Dwell) {
    var rmt := RemoteHop(msToNextHopRemote, frameAirTime);
    LoopEnds(BeforeLoop(rmt, dwell), dwell) && OnRemoteHop(msToNextHopRemote - frameAirTime, MsToNextHop(rmt, dwell), dwell)
  }

  /** A dwell of 32768 or more has no positive 16-bit multiple to point at. */
  lemma LargeDwellMisses(dwell: Dwell)
    requires dwell >= 0x8000
    ensures !SyncWorks(0, 0, dwell)
  {
    if SyncWorks(0, 0, dwell) {
      var m := MsToNextHop(0, dwell);
      var j: int :| m == 0 + j * dwell;
      Multiple(j, dwell);
    }
  }

  /** Every frame in range synchronises the timer if and only if the dwell time is at most 32765 ms. */
  lemma DwellLimit(dwell: Dwell)
    ensures (forall r: Int16, f: nat | InRange(r, f, dwell) :: SyncWorks(r, f, dwell)) <==> dwell <= 32765
  {
    if dwell <= 32765 {
      forall r: Int16, f: nat | InRange(r, f, dwell) ensures SyncWorks(r, f, dwell) { SyncExactly(r - f, dwell); }
    } else if dwell < 0x8000 {
      SyncExactly(2, dwell);
      assert InRange(2, 0, dwell) && !SyncWorks(2, 0, dwell);
    } else {
      LargeDwellMisses(dwell);
      assert InRange(0, 0, dwell) && !SyncWorks(0, 0, dwell);
    }
  }

  /** A timer that reloads, or already runs with the full dwell. */
  predicate Steady(t: Timer, dwell: Dwell) {
    t.reload || t.msec == dwell
  }

  lemma {:induction false} FiringInstants(t: Timer, dwell: Dwell, k: nat)
    requires Steady(t, dwell)
    ensures Steady(FiredTimes(t, dwell, k), dwell)
    ensures FiredTimes(t, dwell, k).NextFiring() == t.NextFiring() + k * dwell
  {
    if k > 0 {
      FiringInstants(t, dwell, k - 1);
      OneMoreDwell(k - 1, dwell);
    }
  }

  /**
   Main result.  A remote radio fires every dwell; at `sent` it puts into a frame
   the time left until its next firing, and at `now` the local radio
   synchronises with it.  From then on every firing of the local timer, with
   the interrupt restoring the interval, is at an instant at which the remote
   timer fires too.
   */
  lemma PhaseLock(remote: Timer, sent: int, now: int, dwell: Dwell, k: nat)
    requires dwell <= 32765 && Steady(remote, dwell) && sent <= now
    requires InRange(remote.NextFiring() - sent, now - sent, dwell)
    ensures var r: Int16 := remote.NextFiring() - sent;
            && LoopEnds(BeforeLoop(RemoteHop(r, now - sent), dwell), dwell)
            && var m := MsToNextHop(RemoteHop(r, now - sent), dwell);
            && var firing := FiredTimes(Timer(now, m, true), dwell, k).NextFiring();
            && firing > now
            && exists j: nat :: firing == FiredTimes(remote, dwell, j).NextFiring()
  {
    var r: Int16 := remote.NextFiring() - sent;
    DwellLimit(dwell);
    assert SyncWorks(r, now - sent, dwell);
    var rmt := RemoteHop(r, now - sent);
    var m := MsToNextHop(rmt, dwell);
    var i: int :| m == rmt + i * dwell;
    Multiple(i, dwell);
    FiringInstants(Timer(now, m, true), dwell, k);
    SumOfDwells(i, k, dwell);
    FiringInstants(remote, dwell, i + k);
    assert FiredTimes(Timer(now, m, true), dwell, k).NextFiring() == FiredTimes(remote, dwell, i + k).NextFiring();
  }

  lemma SumOfDwells(i: int, k: nat, dwell: Dwell)
    ensures (i + k) * dwell == i * dwell + k * dwell && k * dwell >= 0
  {
  }
}
