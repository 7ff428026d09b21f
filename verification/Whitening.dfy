/** Data whitening: the frame is combined with the output of a 9-bit shift register. */
module Whitening {
  import opened Basics

  /** The register: one bit in `msb`, eight in `lsb`. */
  datatype Key = Key(msb: byte, lsb: byte)

  const FIRST_KEY := Key(0x01, 0xFF)

  function NextBit(k: Key): Key {
    Key((k.lsb & 0x01) ^ ((k.lsb >> 5) & 0x01), ((k.lsb >> 1) & 0xFF) | ((k.msb << 7) & 0x80))
  }

  function Advance(k: Key, bits: nat): Key {
    if bits == 0 then k else NextBit(Advance(k, bits - 1))
  }

  /** The register before byte j. */
  function KeyAt(j: nat): Key {
    if j == 0 then FIRST_KEY else Advance(KeyAt(j - 1), 8)
  }

  /** Each element combined with the key for its place. */
  function Combined<W>(s: seq<W>, key: nat -> W, mix: (W, W) -> W): (w: seq<W>)
    ensures |w| == |s| && forall j :: 0 <= j < |s| ==> w[j] == mix(s[j], key(j))
  {
    if s == [] then [] else Combined(s[..|s| - 1], key, mix) + [mix(s[|s| - 1], key(|s| - 1))]
  }

  function Mix(b: byte, k: byte): byte {
    b ^ k
  }

  function KeyByte(j: nat): byte {
    KeyAt(j).lsb
  }

  function Whitened(s: seq<byte>): (w: seq<byte>)
    ensures |w| == |s|
  {
    Combined(s, KeyByte, Mix)
  }

  lemma CombinedPrefix<W>(s: seq<W>, key: nat -> W, mix: (W, W) -> W, j: nat)
    requires j < |s|
    ensures Combined(s[..j + 1], key, mix) == Combined(s[..j], key, mix) + [mix(s[j], key(j))]
  {
    assert s[..j + 1][..j] == s[..j];
  }

  /** The inner loop: eight steps of the register. */
  method AdvanceKey(start: Key) returns (key: Key)
    ensures key == Advance(start, 8)
  {
    key := start;
    for i := 0 to 8
      invariant key == Advance(start, i)
    {
      var previous := key.msb;
      var msb := (key.lsb & 0x01) ^ ((key.lsb >> 5) & 0x01);
      var lsb := ((key.lsb >> 1) & 0xFF) | ((previous << 7) & 0x80);
      key := Key(msb, lsb);
    }
  }

  /** `radioComputeWhitening`, in place. */
  method RadioComputeWhitening(buffer: array<byte>, bufferSize: nat)
    requires bufferSize <= buffer.Length
    modifies buffer
    ensures buffer[..bufferSize] == Whitened(old(buffer[..bufferSize]))
    ensures buffer[bufferSize..] == old(buffer[bufferSize..])
  {
    ghost var was := buffer[..];
    var key := FIRST_KEY;
    for j := 0 to bufferSize
      invariant key == KeyAt(j)
      invariant buffer[..j] == Whitened(was[..j])
      invariant buffer[j..] == was[j..]
    {
      CombinedPrefix(was, KeyByte, Mix, j);
      assert buffer[j] == was[j];
      buffer[j] := Mix(buffer[j], key.lsb);
      key := AdvanceKey(key);
    }
  }

  lemma XorTwice(b: byte, k: byte)
    ensures b ^ k ^ k == b
  {
  }

  /** The key does not depend on the data, so whitening twice gives the frame back. */
  lemma WhiteningIsInvolution(s: seq<byte>)
    ensures Whitened(Whitened(s)) == s
  {
    forall j | 0 <= j < |s| ensures Whitened(Whitened(s))[j] == s[j] { XorTwice(s[j], KeyAt(j).lsb); }
  }

  predicate OneBit(k: Key) {
    k.msb == 0 || k.msb == 1
  }

  function Back(k: Key): Key {
    var top := (k.lsb >> 7) & 0x01;
    var lsb := k.lsb << 1;
    Key(top, lsb | (k.msb ^ ((lsb >> 5) & 0x01)))
  }

  lemma NextBitIsReversible(k: Key)
    requires OneBit(k)
    ensures OneBit(NextBit(k)) && Back(NextBit(k)) == k
    ensures k != Key(0, 0) ==> NextBit(k) != Key(0, 0)
  {
  }

  lemma {:induction false} AdvanceStaysOn(k: Key, bits: nat)
    requires OneBit(k) && k != Key(0, 0)
    ensures OneBit(Advance(k, bits)) && Advance(k, bits) != Key(0, 0)
  {
    if bits > 0 {
      AdvanceStaysOn(k, bits - 1);
      NextBitIsReversible(Advance(k, bits - 1));
    }
  }

  /** The register never runs into the all-zero state, in which data would go out unchanged from then on. */
  lemma {:induction false} KeyStaysOn(j: nat)
    ensures OneBit(KeyAt(j)) && KeyAt(j) != Key(0, 0)
  {
    if j > 0 {
      KeyStaysOn(j - 1);
      AdvanceStaysOn(KeyAt(j - 1), 8);
    }
  }
}
