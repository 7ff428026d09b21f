/** The hop table: evenly spaced channels shuffled by a seeded generator, and the hops through it. */
module HopTable {

  // ---------------------------------------------------------------------
  // The generator
  // ---------------------------------------------------------------------

  /** `myRand`: a 16-bit linear feedback shift register; its output is its next state. */
  function Rand(seed: bv16): bv16 {
    var bit := (seed ^ (seed >> 2) ^ (seed >> 3) ^ (seed >> 5)) & 1;
    (seed >> 1) | (bit << 15)
  }

  /** The state before: the lost bit is recovered from the tap that replaced it. */
  function RandBack(seed: bv16): bv16 {
    var s := seed << 1;
    s | (((seed >> 15) ^ (s >> 2) ^ (s >> 3) ^ (s >> 5)) & 1)
  }

  /** The register never loses state, so it runs through cycles, and 0 is a cycle by itself. */
  lemma RandIsReversible(seed: bv16)
    ensures RandBack(Rand(seed)) == seed
    ensures Rand(seed) == 0 <==> seed == 0
  {
  }

  // ---------------------------------------------------------------------
  // The table
  // ---------------------------------------------------------------------

  function Spacing(low: real, high: real, n: nat): real {
    (high - low) / (n + 2) as real
  }

  /** Frequency of the x-th channel before shuffling, for channels d apart. */
  function Channel(low: real, d: real, x: int): real {
    low + d / 2.0 + x as real * d
  }

  function Even(low: real, d: real, count: nat): (s: seq<real>)
    ensures |s| == count && forall x :: 0 <= x < count ==> s[x] == Channel(low, d, x)
  {
    if count == 0 then [] else Even(low, d, count - 1) + [Channel(low, d, count - 1)]
  }

  function Swap<T>(s: seq<T>, i: nat, j: nat): seq<T>
    requires i < |s| && j < |s|
  {
    s[j := s[i]][i := s[j]]
  }

  function Remainder(a: nat, n: nat): (j: nat)
    requires n > 0
    ensures j < n
  {
    a % n
  }

  /** The generator after k draws. */
  function SeedAfter(seed: bv16, k: nat): bv16 {
    if k == 0 then seed else Rand(SeedAfter(seed, k - 1))
  }

  /** The partners of the rounds of a shuffle of n elements: successive draws modulo n. */
  function Partners(seed: bv16, n: nat, count: nat): (p: seq<nat>)
    requires n > 0
    ensures |p| == count && forall k :: 0 <= k < count ==> p[k] < n
  {
    if count == 0 then [] else Partners(seed, n, count - 1) + [Remainder(SeedAfter(seed, count) as nat, n)]
  }

  /** Round k exchanges element k with its partner. */
  function Exchanged<T>(s: seq<T>, partners: seq<nat>): (r: seq<T>)
    requires |partners| <= |s| && forall k :: 0 <= k < |partners| ==> partners[k] < |s|
    ensures |r| == |s|
  {
    if partners == [] then s
    else
      var k := |partners| - 1;
      Swap(Exchanged(s, partners[..k]), k, partners[k])
  }

  lemma SwapIsPermutation<T>(s: seq<T>, i: nat, j: nat)
    requires i < |s| && j < |s|
    ensures multiset(Swap(s, i, j)) == multiset(s)
  {
  }

  lemma {:induction false} ExchangedIsPermutation<T>(s: seq<T>, partners: seq<nat>)
    requires |partners| <= |s| && forall k :: 0 <= k < |partners| ==> partners[k] < |s|
    ensures multiset(Exchanged(s, partners)) == multiset(s)
  {
    if partners != [] {
      var k := |partners| - 1;
      ExchangedIsPermutation(s, partners[..k]);
      SwapIsPermutation(Exchanged(s, partners[..k]), k, partners[k]);
    }
  }

  lemma OneExchangeMore<T>(s: seq<T>, partners: seq<nat>, j: nat)
    requires |partners| < |s| && j < |s| && forall k :: 0 <= k < |partners| ==> partners[k] < |s|
    ensures Exchanged(s, partners + [j]) == Swap(Exchanged(s, partners), |partners|, j)
  {
    assert (partners + [j])[..|partners|] == partners;
  }

  /** The table after the first `count` rounds of the shuffle. */
  function Shuffled(s: seq<real>, seed: bv16, count: nat): (r: seq<real>)
    requires 0 < |s| < 0x100 && count <= |s|
    ensures |r| == |s|
  {
    Exchanged(s, Partners(seed, |s|, count))
  }

  lemma ShuffleRound(s: seq<real>, seed: bv16, count: nat)
    requires count < |s| < 0x100
    ensures Shuffled(s, seed, count + 1)
            == Swap(Shuffled(s, seed, count), count, Remainder(SeedAfter(seed, count + 1) as nat, |s|))
  {
    OneExchangeMore(s, Partners(seed, |s|, count), Remainder(SeedAfter(seed, count + 1) as nat, |s|));
  }

  lemma ShuffleIsPermutation(s: seq<real>, seed: bv16, count: nat)
    requires 0 < |s| < 0x100 && count <= |s|
    ensures multiset(Shuffled(s, seed, count)) == multiset(s)
  {
    ExchangedIsPermutation(s, Partners(seed, |s|, count));
  }

  predicate Distinct(s: seq<real>) {
    forall i, j :: 0 <= i < j < |s| ==> s[i] != s[j]
  }

  predicate InBand(s: seq<real>, low: real, high: real) {
    forall i :: 0 <= i < |s| ==> low < s[i] < high
  }

  /** Neighbouring channels of the unshuffled table are one spacing apart, inside the band. */
  lemma EvenSpacing(low: real, high: real, d: real, n: nat)
    requires d > 0.0 && (n + 2) as real * d == high - low
    ensures var s := Even(low, d, n);
            && InBand(s, low, high)
            && (forall x :: 0 < x < n ==> s[x] - s[x - 1] == d)
            && (forall x, y :: 0 <= x < y < n ==> s[x] < s[y])
  {
    forall x | 0 <= x < n ensures low < Channel(low, d, x) < high { ChannelInBand(low, high, d, n, x); }
    EvenSteps(low, d, n);
  }

  lemma EvenSteps(low: real, d: real, n: nat)
    requires d > 0.0
    ensures forall x :: 0 < x < n ==> Even(low, d, n)[x] - Even(low, d, n)[x - 1] == d
    ensures forall x, y :: 0 <= x < y < n ==> Even(low, d, n)[x] < Even(low, d, n)[y]
  {
    forall x, y | 0 <= x < y < n ensures Channel(low, d, x) < Channel(low, d, y) { Farther(low, d, x, y); }
    forall x | 0 < x < n ensures Channel(low, d, x) - Channel(low, d, x - 1) == d { OneStep(low, d, x); }
  }

  lemma Farther(low: real, d: real, x: int, y: int)
    requires x < y && d > 0.0
    ensures Channel(low, d, x) < Channel(low, d, y)
  {
    assert (y as real - x as real) * d > 0.0;
  }

  lemma OneStep(low: real, d: real, x: int)
    ensures Channel(low, d, x) - Channel(low, d, x - 1) == d
  {
  }

  lemma ChannelInBand(low: real, high: real, d: real, n: nat, x: nat)
    requires x < n && d > 0.0 && (n + 2) as real * d == high - low
    ensures low < Channel(low, d, x) < high
  {
    BelowTop(d, x, n);
    var offset, width := x as real * d, (n + 2) as real * d;
    assert 0.0 <= offset && offset + d < width;
    assert low + d / 2.0 + offset < low + width;
  }

  lemma BelowTop(d: real, x: nat, n: nat)
    requires x < n && d > 0.0
    ensures 0.0 <= x as real * d && x as real * d + d < (n + 2) as real * d
  {
    var k := n + 2 - x;
    assert (n + 2) as real == x as real + k as real;
    assert (n + 2) as real * d == x as real * d + k as real * d;
    assert k as real >= 3.0;
    assert k as real * d >= 3.0 * d;
  }

  lemma SpacingFits(low: real, high: real, n: nat)
    requires low < high
    ensures Spacing(low, high, n) > 0.0 && (n + 2) as real * Spacing(low, high, n) == high - low
  {
  }

  lemma PermutationKeeps(s: seq<real>, t: seq<real>, low: real, high: real)
    requires multiset(s) == multiset(t) && Distinct(s) && InBand(s, low, high)
    ensures Distinct(t) && InBand(t, low, high)
  {
    forall i | 0 <= i < |t| ensures low < t[i] < high {
      assert t[i] in multiset(t);
      assert t[i] in s;
    }
    if !Distinct(t) {
      var i, j :| 0 <= i < j < |t| && t[i] == t[j];
      assert t == t[..i] + [t[i]] + t[i + 1..j] + [t[j]] + t[j + 1..];
      assert multiset(t)[t[i]] >= 2;
      OnceEach(s, t[i]);
    }
  }

  lemma {:induction false} OnceEach(s: seq<real>, f: real)
    requires Distinct(s)
    ensures multiset(s)[f] <= 1
  {
    if s != [] {
      var most := s[..|s| - 1];
      OnceEach(most, f);
      assert s == most + [s[|s| - 1]];
      if f == s[|s| - 1] { assert f !in most; }
    }
  }

  /**
   For every seed the finished table holds each of the evenly spaced channels
   exactly once, all inside the band.
   */
  lemma TableIsPermutation(low: real, high: real, n: nat, seed: bv16)
    requires low < high && 1 <= n < 0x100
    ensures var table := Shuffled(Even(low, Spacing(low, high, n), n), seed, n - 1);
            && |table| == n && multiset(table) == multiset(Even(low, Spacing(low, high, n), n))
            && Distinct(table) && InBand(table, low, high)
  {
    var even := Even(low, Spacing(low, high, n), n);
    SpacingFits(low, high, n);
    EvenSpacing(low, high, Spacing(low, high, n), n);
    ShuffleIsPermutation(even, seed, n - 1);
    PermutationKeeps(even, Shuffled(even, seed, n - 1), low, high);
  }

  class Radio {
    var channels: array<real>
    var myRandSeed: bv16
    var channelNumber: nat

    constructor ()
      ensures fresh(channels) && channelNumber == 0
    {
      channels := new real[0];
      myRandSeed := 0;
      channelNumber := 0;
    }

    method MyRand() returns (r: bv16)
      modifies this`myRandSeed
      ensures r == myRandSeed == Rand(old(myRandSeed))
    {
      var bit := (myRandSeed ^ (myRandSeed >> 2) ^ (myRandSeed >> 3) ^ (myRandSeed >> 5)) & 1;
      myRandSeed := (myRandSeed >> 1) | (bit << 15);
      return myRandSeed;
    }

    /** `shuffle`, in place. */
    method Shuffle(n: nat)
      requires n == channels.Length && 1 <= n < 0x100
      modifies this`myRandSeed, channels
      ensures channels[..] == Shuffled(old(channels[..]), old(myRandSeed), n - 1)
      ensures myRandSeed == SeedAfter(old(myRandSeed), n - 1)
    {
      for i := 0 to n - 1
        invariant channels[..] == Shuffled(old(channels[..]), old(myRandSeed), i)
        invariant myRandSeed == SeedAfter(old(myRandSeed), i)
      {
        ShuffleRound(old(channels[..]), old(myRandSeed), i);
        var r := MyRand();
        var j := Remainder(r as nat, n);
        var t := channels[j];
        channels[j] := channels[i];
        channels[i] := t;
      }
    }

    /** `generateHopTable`; the seed is the sum of the settings two radios must share. */
    method GenerateHopTable(frequencyMin: real, frequencyMax: real, numberOfChannels: nat, seed: bv16)
      requires frequencyMin < frequencyMax && 1 <= numberOfChannels < 0x100
      modifies this
      ensures fresh(channels)
      ensures channels[..] == Shuffled(Even(frequencyMin, Spacing(frequencyMin, frequencyMax, numberOfChannels), numberOfChannels), seed, numberOfChannels - 1)
      ensures Distinct(channels[..]) && InBand(channels[..], frequencyMin, frequencyMax)
    {
      channels := new real[numberOfChannels];
      var channelSpacing := (frequencyMax - frequencyMin) / (numberOfChannels + 2) as real;
      var operatingMinFreq := frequencyMin + channelSpacing / 2.0;
      for x := 0 to numberOfChannels
        invariant fresh(channels) && channels.Length == numberOfChannels
        invariant forall k :: 0 <= k < x ==> channels[k] == Channel(frequencyMin, channelSpacing, k)
      {
        channels[x] := operatingMinFreq + x as real * channelSpacing;
      }
      myRandSeed := seed;
      assert channels[..] == Even(frequencyMin, Spacing(frequencyMin, frequencyMax, numberOfChannels), numberOfChannels);
      Shuffle(numberOfChannels);
      TableIsPermutation(frequencyMin, frequencyMax, numberOfChannels, seed);
    }

    /** `hopChannel` with a direction and a count; the arithmetic is in 8 bits. */
    method HopChannel(forward: bool, channelCount: nat, numberOfChannels: nat)
      requires 1 <= numberOfChannels < 0x100 && channelCount <= numberOfChannels
      modifies this`channelNumber
      ensures channelNumber == if forward then HopForward(old(channelNumber), channelCount, numberOfChannels)
                               else HopReverse(old(channelNumber), channelCount, numberOfChannels)
    {
      if forward {
        channelNumber := (channelNumber + channelCount) % 0x100;
      } else {
        channelNumber := (channelNumber + (numberOfChannels - channelCount)) % 0x100;
      }
      channelNumber := channelNumber % numberOfChannels;
    }
  }

  // ---------------------------------------------------------------------
  // Hops
  // ---------------------------------------------------------------------

  function HopForward(channel: nat, count: nat, n: nat): nat
    requires n > 0
  {
    (channel + count) % 0x100 % n
  }

  function HopReverse(channel: nat, count: nat, n: nat): nat
    requires n > 0 && count <= n
  {
    (channel + n - count) % 0x100 % n
  }

  /** The index before `channel` around the table. */
  function Previous(channel: nat, n: nat): nat
    requires channel < n
  {
    if channel == 0 then n - 1 else channel - 1
  }

  lemma ReverseOnce(channel: nat, n: nat)
    requires 1 <= n < 0x100 && channel < n
    ensures channel + n <= 0x100 ==> HopReverse(channel, 1, n) == Previous(channel, n)
    ensures channel + n > 0x100 ==> HopReverse(channel, 1, n) == channel + n - 0x101 < channel - 1
  {
    if channel + n <= 0x100 { ModOnce(channel + n - 1, n); } else { ModOnce(channel + n - 0x101, n); }
  }

  lemma ForwardOnce(channel: nat, n: nat)
    requires 1 <= n < 0x100 && channel < n
    ensures HopForward(channel, 1, n) == if channel + 1 == n then 0 else channel + 1
  {
    ModOnce(channel + 1, n);
  }

  lemma ModOnce(x: nat, n: nat)
    requires x < 2 * n
    ensures x % n == if x < n then x else x - n
  {
    var q := x / n;
    assert x == q * n + x % n;
    assert q >= 2 ==> (q - 2) * n >= 0;
    assert q == 0 || q == 1;
  }

  /** A reverse hop undoes a forward hop on every channel, and a forward hop a reverse hop, if and only if there are at most 128 channels. */
  lemma ReverseUndoesForward(n: nat)
    requires 1 <= n < 0x100
    ensures (forall c :: 0 <= c < n ==> HopReverse(HopForward(c, 1, n), 1, n) == c) <==> n <= 128
    ensures (forall c :: 0 <= c < n ==> HopForward(HopReverse(c, 1, n), 1, n) == c) <==> n <= 128
  {
    if n <= 128 {
      forall c | 0 <= c < n
        ensures HopReverse(HopForward(c, 1, n), 1, n) == c && HopForward(HopReverse(c, 1, n), 1, n) == c
      {
        ForwardOnce(c, n);
        ReverseOnce(HopForward(c, 1, n), n);
        ReverseOnce(c, n);
        ForwardOnce(HopReverse(c, 1, n), n);
      }
    } else {
      ForwardOnce(n - 2, n);
      ReverseOnce(n - 1, n);
      ForwardOnce(HopReverse(n - 1, 1, n), n);
      assert HopReverse(HopForward(n - 2, 1, n), 1, n) != n - 2;
      assert HopForward(HopReverse(n - 1, 1, n), 1, n) != n - 1;
    }
  }

  /** The channel after k reverse hops of the server scan. */
  function Scan(channel: nat, k: nat, n: nat): nat
    requires n > 0
  {
    if k == 0 then channel else HopReverse(Scan(channel, k - 1, n), 1, n)
  }

  lemma {:induction false} ScanSteps(channel: nat, k: nat, n: nat)
    requires 1 <= n <= 128 && channel < n && k < n
    ensures Scan(channel, k, n) == if k <= channel then channel - k else channel + n - k
  {
    if k > 0 {
      ScanSteps(channel, k - 1, n);
      ReverseOnce(Scan(channel, k - 1, n), n);
    }
  }

  /** With more than 128 channels no reverse hop ever arrives at the last channel but one. */
  lemma {:induction false} ScanMisses(channel: nat, k: nat, n: nat)
    requires 128 < n < 0x100 && channel < n
    ensures Scan(channel, k, n) < n
    ensures k > 0 ==> Scan(channel, k, n) != n - 2
  {
    if k > 0 {
      ScanMisses(channel, k - 1, n);
      ReverseOnce(Scan(channel, k - 1, n), n);
    }
  }

  ghost predicate VisitsOnce(channel: nat, target: nat, n: nat)
    requires n > 0
  {
    exists k: nat :: k < n && Scan(channel, k, n) == target
                     && forall other: nat :: other < n && Scan(channel, other, n) == target ==> other == k
  }

  /** n reverse hops from any channel visit every channel exactly once if and only if n is at most 128. */
  lemma ScanVisitsAll(n: nat)
    requires 1 <= n < 0x100
    ensures (forall c: nat, target: nat :: c < n && target < n ==> VisitsOnce(c, target, n)) <==> n <= 128
  {
    if n <= 128 {
      forall c: nat, target: nat | c < n && target < n ensures VisitsOnce(c, target, n) {
        var k: nat := if target <= c then c - target else c + n - target;
        ScanSteps(c, k, n);
        forall other: nat | other < n && Scan(c, other, n) == target ensures other == k { ScanSteps(c, other, n); }
      }
    } else {
      forall k: nat ensures Scan(0, k, n) != n - 2 { ScanMisses(0, k, n); }
      assert !VisitsOnce(0, n - 2, n);
    }
  }
}
