/** The frame check sequence: a table-driven CRC-16 against polynomial division over GF(2). */
module Crc16 {
  import opened Basics

  // `crc16Table`, sixteen entries a row
  const ROW_0: seq<bv16> := [0x0000, 0x1021, 0x2042, 0x3063, 0x4084, 0x50A5, 0x60C6, 0x70E7,
    0x8108, 0x9129, 0xA14A, 0xB16B, 0xC18C, 0xD1AD, 0xE1CE, 0xF1EF]
  const ROW_1: seq<bv16> := [0x1231, 0x0210, 0x3273, 0x2252, 0x52B5, 0x4294, 0x72F7, 0x62D6,
    0x9339, 0x8318, 0xB37B, 0xA35A, 0xD3BD, 0xC39C, 0xF3FF, 0xE3DE]
  const ROW_2: seq<bv16> := [0x2462, 0x3443, 0x0420, 0x1401, 0x64E6, 0x74C7, 0x44A4, 0x5485,
    0xA56A, 0xB54B, 0x8528, 0x9509, 0xE5EE, 0xF5CF, 0xC5AC, 0xD58D]
  const ROW_3: seq<bv16> := [0x3653, 0x2672, 0x1611, 0x0630, 0x76D7, 0x66F6, 0x5695, 0x46B4,
    0xB75B, 0xA77A, 0x9719, 0x8738, 0xF7DF, 0xE7FE, 0xD79D, 0xC7BC]
  const ROW_4: seq<bv16> := [0x48C4, 0x58E5, 0x6886, 0x78A7, 0x0840, 0x1861, 0x2802, 0x3823,
    0xC9CC, 0xD9ED, 0xE98E, 0xF9AF, 0x8948, 0x9969, 0xA90A, 0xB92B]
  const ROW_5: seq<bv16> := [0x5AF5, 0x4AD4, 0x7AB7, 0x6A96, 0x1A71, 0x0A50, 0x3A33, 0x2A12,
    0xDBFD, 0xCBDC, 0xFBBF, 0xEB9E, 0x9B79, 0x8B58, 0xBB3B, 0xAB1A]
  const ROW_6: seq<bv16> := [0x6CA6, 0x7C87, 0x4CE4, 0x5CC5, 0x2C22, 0x3C03, 0x0C60, 0x1C41,
    0xEDAE, 0xFD8F, 0xCDEC, 0xDDCD, 0xAD2A, 0xBD0B, 0x8D68, 0x9D49]
  const ROW_7: seq<bv16> := [0x7E97, 0x6EB6, 0x5ED5, 0x4EF4, 0x3E13, 0x2E32, 0x1E51, 0x0E70,
    0xFF9F, 0xEFBE, 0xDFDD, 0xCFFC, 0xBF1B, 0xAF3A, 0x9F59, 0x8F78]
  const ROW_8: seq<bv16> := [0x9188, 0x81A9, 0xB1CA, 0xA1EB, 0xD10C, 0xC12D, 0xF14E, 0xE16F,
    0x1080, 0x00A1, 0x30C2, 0x20E3, 0x5004, 0x4025, 0x7046, 0x6067]
  const ROW_9: seq<bv16> := [0x83B9, 0x9398, 0xA3FB, 0xB3DA, 0xC33D, 0xD31C, 0xE37F, 0xF35E,
    0x02B1, 0x1290, 0x22F3, 0x32D2, 0x4235, 0x5214, 0x6277, 0x7256]
  const ROW_A: seq<bv16> := [0xB5EA, 0xA5CB, 0x95A8, 0x8589, 0xF56E, 0xE54F, 0xD52C, 0xC50D,
    0x34E2, 0x24C3, 0x14A0, 0x0481, 0x7466, 0x6447, 0x5424, 0x4405]
  const ROW_B: seq<bv16> := [0xA7DB, 0xB7FA, 0x8799, 0x97B8, 0xE75F, 0xF77E, 0xC71D, 0xD73C,
    0x26D3, 0x36F2, 0x0691, 0x16B0, 0x6657, 0x7676, 0x4615, 0x5634]
  const ROW_C: seq<bv16> := [0xD94C, 0xC96D, 0xF90E, 0xE92F, 0x99C8, 0x89E9, 0xB98A, 0xA9AB,
    0x5844, 0x4865, 0x7806, 0x6827, 0x18C0, 0x08E1, 0x3882, 0x28A3]
  const ROW_D: seq<bv16> := [0xCB7D, 0xDB5C, 0xEB3F, 0xFB1E, 0x8BF9, 0x9BD8, 0xABBB, 0xBB9A,
    0x4A75, 0x5A54, 0x6A37, 0x7A16, 0x0AF1, 0x1AD0, 0x2AB3, 0x3A92]
  const ROW_E: seq<bv16> := [0xFD2E, 0xED0F, 0xDD6C, 0xCD4D, 0xBDAA, 0xAD8B, 0x9DE8, 0x8DC9,
    0x7C26, 0x6C07, 0x5C64, 0x4C45, 0x3CA2, 0x2C83, 0x1CE0, 0x0CC1]
  const ROW_F: seq<bv16> := [0xEF1F, 0xFF3E, 0xCF5D, 0xDF7C, 0xAF9B, 0xBFBA, 0x8FD9, 0x9FF8,
    0x6E17, 0x7E36, 0x4E55, 0x5E74, 0x2E93, 0x3EB2, 0x0ED1, 0x1EF0]

  function TableRow(r: nat): (s: seq<bv16>)
    requires r < 16
    ensures |s| == 16
  {
    match r
    case 0 => ROW_0 case 1 => ROW_1 case 2 => ROW_2 case 3 => ROW_3
    case 4 => ROW_4 case 5 => ROW_5 case 6 => ROW_6 case 7 => ROW_7
    case 8 => ROW_8 case 9 => ROW_9 case 10 => ROW_A case 11 => ROW_B
    case 12 => ROW_C case 13 => ROW_D case 14 => ROW_E case 15 => ROW_F
  }

  function TableEntry(i: byte): bv16 {
    TableRow((i >> 4) as nat)[(i & 0x0F) as nat]
  }

  /** One byte through the table. */
  function TableStep(crc: bv16, b: byte): bv16 {
    TableEntry(b ^ ((crc >> 8) as byte)) ^ (crc << 8)
  }

  // ---------------------------------------------------------------------
  // Bit by bit
  // ---------------------------------------------------------------------

  /** Multiplication by x modulo x^16 + x^12 + x^5 + 1. */
  function TimesX(c: bv16): bv16 {
    if c & 0x8000 != 0 then (c << 1) ^ 0x1021 else c << 1
  }

  function Repeat<W>(f: W -> W, c: W, n: nat): W {
    if n == 0 then c else f(Repeat(f, c, n - 1))
  }

  /** Multiplication by x^n. */
  function Times(c: bv16, n: nat): bv16 {
    Repeat(TimesX, c, n)
  }

  /** The remainder after one more message byte, bit by bit. */
  function BitStep(crc: bv16, b: byte): bv16 {
    Times(crc ^ ((b as bv16) << 8), 8)
  }

  // Multiplication distributes over addition, which is exclusive or

  lemma ShiftSum(u: bv16, v: bv16)
    ensures (u ^ v) << 1 == (u << 1) ^ (v << 1)
    ensures ((u ^ v) & 0x8000 != 0) == ((u & 0x8000 != 0) != (v & 0x8000 != 0))
  {
  }

  lemma ReduceFirst(u: bv16, v: bv16)
    ensures ((u ^ v) << 1) ^ 0x1021 == ((u << 1) ^ 0x1021) ^ (v << 1)
  {
  }

  lemma ReduceSecond(u: bv16, v: bv16)
    ensures ((u ^ v) << 1) ^ 0x1021 == (u << 1) ^ ((v << 1) ^ 0x1021)
  {
  }

  lemma ReduceBoth(u: bv16, v: bv16)
    ensures (u ^ v) << 1 == ((u << 1) ^ 0x1021) ^ ((v << 1) ^ 0x1021)
  {
  }

  lemma NoneLeaves(u: bv16, v: bv16)
    requires u & 0x8000 == 0 && v & 0x8000 == 0
    ensures TimesX(u ^ v) == TimesX(u) ^ TimesX(v)
  {
    ShiftSum(u, v);
  }

  lemma FirstLeaves(u: bv16, v: bv16)
    requires u & 0x8000 != 0 && v & 0x8000 == 0
    ensures TimesX(u ^ v) == TimesX(u) ^ TimesX(v)
  {
    ShiftSum(u, v);
    ReduceFirst(u, v);
  }

  lemma SecondLeaves(u: bv16, v: bv16)
    requires u & 0x8000 == 0 && v & 0x8000 != 0
    ensures TimesX(u ^ v) == TimesX(u) ^ TimesX(v)
  {
    ShiftSum(u, v);
    ReduceSecond(u, v);
  }

  lemma BothLeave(u: bv16, v: bv16)
    requires u & 0x8000 != 0 && v & 0x8000 != 0
    ensures TimesX(u ^ v) == TimesX(u) ^ TimesX(v)
  {
    ShiftSum(u, v);
    ReduceBoth(u, v);
  }

  lemma TimesXIsLinear(u: bv16, v: bv16)
    ensures TimesX(u ^ v) == TimesX(u) ^ TimesX(v)
  {
    if u & 0x8000 != 0 {
      if v & 0x8000 != 0 { BothLeave(u, v); } else { FirstLeaves(u, v); }
    } else {
      if v & 0x8000 != 0 { SecondLeaves(u, v); } else { NoneLeaves(u, v); }
    }
  }

  /** A row with f applied to each entry. */
  function Each<T>(row: seq<T>, f: T -> T): (s: seq<T>)
    requires |row| == 16
    ensures |s| == 16
  {
    [f(row[0]), f(row[1]), f(row[2]), f(row[3]), f(row[4]), f(row[5]), f(row[6]), f(row[7]),
     f(row[8]), f(row[9]), f(row[10]), f(row[11]), f(row[12]), f(row[13]), f(row[14]), f(row[15])]
  }

  lemma EachEntry<T>(row: seq<T>, f: T -> T, j: nat)
    requires |row| == 16 && j < 16
    ensures Each(row, f)[j] == f(row[j])
  {
  }

  /** Each entry is the entry of the first row above it plus the first entry of its own row. */
  predicate IsSum(row: seq<bv16>) {
    |row| == 16 && row == Each(ROW_0, v => v ^ row[0])
  }

  lemma RowsAreSums()
    ensures IsSum(ROW_0) && IsSum(ROW_1) && IsSum(ROW_2) && IsSum(ROW_3)
    ensures IsSum(ROW_4) && IsSum(ROW_5) && IsSum(ROW_6) && IsSum(ROW_7)
    ensures IsSum(ROW_8) && IsSum(ROW_9) && IsSum(ROW_A) && IsSum(ROW_B)
    ensures IsSum(ROW_C) && IsSum(ROW_D) && IsSum(ROW_E) && IsSum(ROW_F)
  {
  }

  lemma RowIsSum(r: nat)
    requires r < 16
    ensures IsSum(TableRow(r))
  {
    RowsAreSums();
  }

  lemma LowEntry(l: byte)
    requires l & 0xF0 == 0
    ensures TableRow(0)[l as nat] == Times((l as bv16) << 8, 8)
  {
    EightTimes(TimesX, (l as bv16) << 8);
  }

  lemma HighEntry(h: byte)
    requires h & 0x0F == 0
    ensures TableRow((h >> 4) as nat)[0] == Times((h as bv16) << 8, 8)
  {
    EightTimes(TimesX, (h as bv16) << 8);
  }

  lemma {:induction false} RepeatIsLinear<W(!new)>(f: W -> W, sum: (W, W) -> W, u: W, v: W, n: nat)
    requires forall p, q :: f(sum(p, q)) == sum(f(p), f(q))
    ensures Repeat(f, sum(u, v), n) == sum(Repeat(f, u, n), Repeat(f, v, n))
  {
    if n > 0 { RepeatIsLinear(f, sum, u, v, n - 1); }
  }

  lemma EightTimes<W>(f: W -> W, c: W)
    ensures Repeat(f, c, 8) == f(f(f(f(f(f(f(f(c))))))))
  {
    assert Repeat(f, c, 4) == f(f(f(f(c))));
    assert Repeat(f, c, 6) == f(f(Repeat(f, c, 4)));
  }

  function Sum(u: bv16, v: bv16): bv16 {
    u ^ v
  }

  lemma TimesIsLinear(u: bv16, v: bv16, n: nat)
    ensures Times(Sum(u, v), n) == Sum(Times(u, n), Times(v, n))
  {
    forall p: bv16, q: bv16 ensures TimesX(Sum(p, q)) == Sum(TimesX(p), TimesX(q)) { TimesXIsLinear(p, q); }
    RepeatIsLinear(TimesX, Sum, u, v, n);
  }

  lemma Halves(i: byte)
    ensures (i & 0x0F) & 0xF0 == 0 && (i & 0xF0) & 0x0F == 0 && (i & 0xF0) >> 4 == i >> 4
    ensures (((i & 0x0F) as bv16) << 8) ^ (((i & 0xF0) as bv16) << 8) == (i as bv16) << 8
  {
  }

  lemma EntryOfSum(i: byte)
    ensures TableEntry(i) == Sum(ROW_0[(i & 0x0F) as nat], TableRow((i >> 4) as nat)[0])
  {
    var r := (i >> 4) as nat;
    RowIsSum(r);
    EachEntry(ROW_0, v => v ^ TableRow(r)[0], (i & 0x0F) as nat);
  }

  /** Every one of the 256 entries is the remainder of its index times x^16. */
  lemma TableEntryIsRemainder(i: byte)
    ensures TableEntry(i) == Times((i as bv16) << 8, 8)
  {
    var h, l := i & 0xF0, i & 0x0F;
    Halves(i);
    EntryOfSum(i);
    LowEntry(l);
    HighEntry(h);
    TimesIsLinear((l as bv16) << 8, (h as bv16) << 8, 8);
  }

  /** A remainder of degree below 8 only moves up. */
  lemma LowByteMovesUp(w: bv16)
    requires w & 0xFF00 == 0
    ensures Times(w, 8) == w << 8
  {
    EightTimes(TimesX, w);
  }

  lemma SplitWord(crc: bv16, b: byte)
    ensures crc ^ ((b as bv16) << 8) == Sum(((b ^ ((crc >> 8) as byte)) as bv16) << 8, crc & 0x00FF)
  {
  }

  lemma LowByte(crc: bv16)
    ensures (crc & 0x00FF) & 0xFF00 == 0 && (crc & 0x00FF) << 8 == crc << 8
  {
  }

  lemma RestMovesUp(crc: bv16)
    ensures Times(crc & 0x00FF, 8) == crc << 8
  {
    LowByte(crc);
    LowByteMovesUp(crc & 0x00FF);
  }

  lemma BitStepOfSum(crc: bv16, b: byte, entry: bv16)
    requires entry == Times(((b ^ ((crc >> 8) as byte)) as bv16) << 8, 8)
    ensures BitStep(crc, b) == Sum(entry, crc << 8)
  {
    SplitWord(crc, b);
    TimesIsLinear(((b ^ ((crc >> 8) as byte)) as bv16) << 8, crc & 0x00FF, 8);
    RestMovesUp(crc);
  }

  lemma TableStepOfSum(crc: bv16, b: byte)
    ensures TableStep(crc, b) == Sum(TableEntry(b ^ ((crc >> 8) as byte)), crc << 8)
  {
  }

  /** One table lookup does the work of eight divisions by bit. */
  lemma TableStepIsBitStep(crc: bv16, b: byte)
    ensures TableStep(crc, b) == BitStep(crc, b)
  {
    var entry := TableEntry(b ^ ((crc >> 8) as byte));
    TableEntryIsRemainder(b ^ ((crc >> 8) as byte));
    BitStepOfSum(crc, b, entry);
    TableStepOfSum(crc, b);
  }

  // ---------------------------------------------------------------------
  // Whole messages
  // ---------------------------------------------------------------------

  function Fold<W>(step: (W, byte) -> W, start: W, data: seq<byte>): W {
    if data == [] then start else step(Fold(step, start, data[..|data| - 1]), data[|data| - 1])
  }

  /** The check sequence: the register starts with all ones. */
  function Crc(data: seq<byte>): bv16 {
    Fold(TableStep, 0xFFFF, data)
  }

  function BitCrc(data: seq<byte>): bv16 {
    Fold(BitStep, 0xFFFF, data)
  }

  lemma FoldOne<W>(step: (W, byte) -> W, start: W, data: seq<byte>, i: nat)
    requires i < |data|
    ensures Fold(step, start, data[..i + 1]) == step(Fold(step, start, data[..i]), data[i])
  {
    assert data[..i + 1][..i] == data[..i];
  }

  lemma FoldTwo<W>(step: (W, byte) -> W, start: W, data: seq<byte>, a: byte, b: byte)
    ensures Fold(step, start, data + [a, b]) == step(step(Fold(step, start, data), a), b)
  {
    var s := data + [a, b];
    assert s[..|data|] == data && s[..|s|] == s;
    FoldOne(step, start, s, |data|);
    FoldOne(step, start, s, |data| + 1);
  }

  /** The table-driven value is the one of the bit-serial divider, for every message. */
  lemma {:induction false} TableCrcIsBitCrc(data: seq<byte>)
    ensures Crc(data) == BitCrc(data)
  {
    if data != [] {
      var most := data[..|data| - 1];
      TableCrcIsBitCrc(most);
      TableStepIsBitStep(Crc(most), data[|data| - 1]);
    }
  }

  /** The message as a polynomial, its first bit the highest coefficient, modulo the generator. */
  function Polynomial(data: seq<byte>): bv16 {
    Fold(NextCoefficients, 0, data)
  }

  function NextCoefficients(p: bv16, b: byte): bv16 {
    Sum(Times(p, 8), b as bv16)
  }

  lemma {:induction false} RepeatAgain<W>(f: W -> W, c: W, m: nat, n: nat)
    ensures Repeat(f, Repeat(f, c, m), n) == Repeat(f, c, m + n)
  {
    if n > 0 { RepeatAgain(f, c, m, n - 1); }
  }

  lemma TimesAgain(c: bv16, m: nat, n: nat)
    ensures Times(Times(c, m), n) == Times(c, m + n)
  {
    RepeatAgain(TimesX, c, m, n);
  }

  lemma ByteMovesUp(b: byte)
    ensures Times(b as bv16, 8) == (b as bv16) << 8
  {
    LowByteMovesUp(b as bv16);
  }

  lemma Distribute(crc: bv16, b: byte)
    ensures BitStep(crc, b) == Sum(Times(crc, 8), Times(b as bv16, 16))
  {
    ByteMovesUp(b);
    TimesAgain(b as bv16, 8, 8);
    TimesIsLinear(crc, (b as bv16) << 8, 8);
  }

  lemma Regroup(u: bv16, v: bv16, w: bv16)
    ensures Sum(Sum(u, v), w) == Sum(Sum(u, w), v)
  {
  }

  lemma {:induction false} DividerRemainder(data: seq<byte>)
    ensures BitCrc(data) == Sum(Times(Polynomial(data), 16), Times(0xFFFF, 8 * |data|))
  {
    if data == [] {
      NothingFed();
    } else {
      var most, b := data[..|data| - 1], data[|data| - 1];
      var p, preset := Polynomial(most), Times(0xFFFF, 8 * |most|);
      DividerRemainder(most);
      NextByte(BitCrc(most), p, preset, b);
      TimesAgain(0xFFFF, 8 * |most|, 8);
    }
  }

  /** The check sequence is x^16 times the message, plus the preset times x^(8n), modulo the generator. */
  lemma CrcIsPolynomialRemainder(data: seq<byte>)
    ensures Crc(data) == Sum(Times(Polynomial(data), 16), Times(0xFFFF, 8 * |data|))
  {
    DividerRemainder(data);
    TableCrcIsBitCrc(data);
  }

  lemma NothingFed()
    ensures 0xFFFF == Sum(Times(0, 16), Times(0xFFFF, 0))
  {
    EightTimes(TimesX, 0);
    TimesAgain(0, 8, 8);
  }

  lemma NextByte(crc: bv16, p: bv16, preset: bv16, b: byte)
    requires crc == Sum(Times(p, 16), preset)
    ensures BitStep(crc, b) == Sum(Times(Sum(Times(p, 8), b as bv16), 16), Times(preset, 8))
  {
    Distribute(crc, b);
    TimesIsLinear(Times(p, 16), preset, 8);
    TimesIsLinear(Times(p, 8), b as bv16, 16);
    TimesAgain(p, 16, 8);
    TimesAgain(p, 8, 16);
    Regroup(Times(p, 24), Times(preset, 8), Times(b as bv16, 16));
  }

  function High(w: bv16): byte {
    (w >> 8) as byte
  }

  function Low(w: bv16): byte {
    (w & 0xFF) as byte
  }

  /** The two trailer bytes. */
  function Trailer(crc: bv16): (s: seq<byte>)
    ensures |s| == 2
  {
    [High(crc), Low(crc)]
  }

  lemma OwnTop(crc: bv16)
    ensures TableStep(crc, High(crc)) == crc << 8
  {
    var i := High(crc) ^ High(crc);
    assert i == 0;
  }

  lemma SecondByte(crc: bv16)
    ensures High(crc << 8) == Low(crc)
    ensures (crc << 8) << 8 == 0
  {
  }

  lemma TrailerClears(crc: bv16)
    ensures TableStep(TableStep(crc, High(crc)), Low(crc)) == 0
  {
    OwnTop(crc);
    SecondByte(crc);
    OwnTop(crc << 8);
  }

  /** Running the check over a message and its trailer leaves nothing. */
  lemma ResidueIsZero(data: seq<byte>)
    ensures Crc(data + Trailer(Crc(data))) == 0
  {
    var crc := Crc(data);
    TrailerClears(crc);
    FoldTwo(TableStep, 0xFFFF, data, High(crc), Low(crc));
  }

  /** The check of `rcvDatagram` on the two bytes received after `data`. */
  predicate Accepted(data: seq<byte>, first: byte, second: byte) {
    Matches(Crc(data), first, second)
  }

  predicate Matches(crc: bv16, first: byte, second: byte) {
    !(first != High(crc) && second != Low(crc))
  }

  // ---------------------------------------------------------------------
  // What the check lets through
  // ---------------------------------------------------------------------

  /** Bytes add bit by bit too. */
  function Flipped(b: byte, e: byte): byte {
    b ^ e
  }

  /** `data` as received when the bits set in `e` have been flipped. */
  function Corrupted(data: seq<byte>, e: seq<byte>): (s: seq<byte>)
    requires |data| == |e|
    ensures |s| == |data|
  {
    if data == [] then [] else Corrupted(data[..|data| - 1], e[..|e| - 1]) + [Flipped(data[|data| - 1], e[|e| - 1])]
  }

  /** Sums in pairs, for any addition that allows it. */
  lemma CrossSum<W(!new)>(sum: (W, W) -> W, a: W, b: W, c: W, d: W)
    requires forall p, q, r :: sum(sum(p, q), r) == sum(sum(p, r), q)
    requires forall p, q, r :: sum(sum(p, q), r) == sum(p, sum(q, r))
    ensures sum(sum(a, b), sum(c, d)) == sum(sum(a, c), sum(b, d))
  {
  }

  lemma SumAssociates(u: bv16, v: bv16, w: bv16)
    ensures Sum(Sum(u, v), w) == Sum(u, Sum(v, w))
  {
  }

  lemma PairSums(a: bv16, b: bv16, c: bv16, d: bv16)
    ensures Sum(Sum(a, b), Sum(c, d)) == Sum(Sum(a, c), Sum(b, d))
  {
    forall p: bv16, q: bv16, r: bv16 ensures Sum(Sum(p, q), r) == Sum(Sum(p, r), q) { Regroup(p, q, r); }
    forall p: bv16, q: bv16, r: bv16 ensures Sum(Sum(p, q), r) == Sum(p, Sum(q, r)) { SumAssociates(p, q, r); }
    CrossSum(Sum, a, b, c, d);
  }

  lemma ByteSum(b: byte, c: byte)
    ensures Flipped(b, c) as bv16 == Sum(b as bv16, c as bv16)
  {
  }

  /** A fold whose steps distribute over a sum distributes over it as a whole. */
  lemma {:induction false} FoldOfSum<W(!new)>(step: (W, byte) -> W, sum: (W, W) -> W, u: W, v: W, data: seq<byte>, e: seq<byte>)
    requires |data| == |e|
    requires forall p, q, b, c :: step(sum(p, q), Flipped(b, c)) == sum(step(p, b), step(q, c))
    ensures Fold(step, sum(u, v), Corrupted(data, e)) == sum(Fold(step, u, data), Fold(step, v, e))
  {
    if data != [] {
      FoldOfSum(step, sum, u, v, data[..|data| - 1], e[..|e| - 1]);
      assert Corrupted(data, e)[..|data| - 1] == Corrupted(data[..|data| - 1], e[..|e| - 1]);
    }
  }

  lemma NextOfSum(p: bv16, q: bv16, b: byte, c: byte)
    ensures NextCoefficients(Sum(p, q), Flipped(b, c)) == Sum(NextCoefficients(p, b), NextCoefficients(q, c))
  {
    TimesIsLinear(p, q, 8);
    ByteSum(b, c);
    PairSums(Times(p, 8), Times(q, 8), b as bv16, c as bv16);
  }

  lemma ZeroSum()
    ensures Sum(0, 0) == 0
  {
  }

  lemma PolynomialOfSum(data: seq<byte>, e: seq<byte>)
    requires |data| == |e|
    ensures Polynomial(Corrupted(data, e)) == Sum(Polynomial(data), Polynomial(e))
  {
    forall p: bv16, q: bv16, b: byte, c: byte
      ensures NextCoefficients(Sum(p, q), Flipped(b, c)) == Sum(NextCoefficients(p, b), NextCoefficients(q, c))
    {
      NextOfSum(p, q, b, c);
    }
    ZeroSum();
    FoldOfSum(NextCoefficients, Sum, 0, 0, data, e);
  }

  /** The change of the check sequence depends on the flipped bits alone. */
  function Syndrome(e: seq<byte>): bv16 {
    Times(Polynomial(e), 16)
  }

  lemma CrcOfCorrupted(data: seq<byte>, e: seq<byte>)
    requires |data| == |e|
    ensures Crc(Corrupted(data, e)) == Sum(Crc(data), Syndrome(e))
  {
    CrcIsPolynomialRemainder(data);
    CrcIsPolynomialRemainder(Corrupted(data, e));
    PolynomialOfSum(data, e);
    TimesIsLinear(Polynomial(data), Polynomial(e), 16);
    Regroup(Times(Polynomial(data), 16), Syndrome(e), Times(0xFFFF, 8 * |data|));
  }

  lemma HighOfSum(u: bv16, v: bv16)
    ensures High(Sum(u, v)) == Flipped(High(u), High(v))
  {
  }

  lemma LowOfSum(u: bv16, v: bv16)
    ensures Low(Sum(u, v)) == Flipped(Low(u), Low(v))
  {
  }

  lemma SameByte(b: byte, c: byte, d: byte)
    ensures Flipped(b, c) == Flipped(b, d) <==> c == d
  {
  }

  lemma MatchesSum(crc: bv16, syndrome: bv16, first: byte, second: byte)
    ensures Matches(Sum(crc, syndrome), Flipped(High(crc), first), Flipped(Low(crc), second))
            <==> first == High(syndrome) || second == Low(syndrome)
  {
    HighOfSum(crc, syndrome);
    LowOfSum(crc, syndrome);
    SameByte(High(crc), first, High(syndrome));
    SameByte(Low(crc), second, Low(syndrome));
  }

  /**
   A frame whose data bits `e` and whose trailer bits `first`, `second` have been
   flipped is accepted exactly when one of the trailer errors is the matching
   byte of the syndrome of `e`, whatever the data was.
   */
  lemma AcceptedExactly(data: seq<byte>, e: seq<byte>, first: byte, second: byte)
    requires |data| == |e|
    ensures var trailer := Trailer(Crc(data));
            Accepted(Corrupted(data, e), Flipped(trailer[0], first), Flipped(trailer[1], second))
            <==> first == Trailer(Syndrome(e))[0] || second == Trailer(Syndrome(e))[1]
  {
    CrcOfCorrupted(data, e);
    MatchesSum(Crc(data), Syndrome(e), first, second);
  }

  /** With the trailer intact an error in the data is refused if and only if both bytes of its syndrome are nonzero. */
  lemma DataErrorRefusedExactly(data: seq<byte>, e: seq<byte>)
    requires |data| == |e|
    ensures var trailer := Trailer(Crc(data));
            !Accepted(Corrupted(data, e), trailer[0], trailer[1])
            <==> Trailer(Syndrome(e))[0] != 0 && Trailer(Syndrome(e))[1] != 0
  {
    AcceptedExactly(data, e, 0, 0);
    NoError(Trailer(Crc(data))[0]);
    NoError(Trailer(Crc(data))[1]);
  }

  lemma NoError(b: byte)
    ensures Flipped(b, 0) == b
  {
  }

  /** n bytes without an error. */
  function Intact(n: nat): (e: seq<byte>)
    ensures |e| == n
  {
    if n == 0 then [] else Intact(n - 1) + [0]
  }

  lemma {:induction false} IntactPolynomial(n: nat)
    ensures Polynomial(Intact(n)) == 0
  {
    if n > 0 {
      IntactPolynomial(n - 1);
      assert Intact(n)[..n - 1] == Intact(n - 1);
      NothingNext();
    }
  }

  lemma NothingNext()
    ensures NextCoefficients(0, 0) == 0
  {
    EightTimes(TimesX, 0);
  }

  lemma SmallError()
    ensures NextCoefficients(0, 0x89) == 0x89 && High(Times(0x89, 16)) == 0
  {
    EightTimes(TimesX, 0);
    EightTimes(TimesX, 0x89);
    EightTimes(TimesX, Times(0x89, 8));
    TimesAgain(0x89, 8, 8);
  }

  lemma FoldSnoc<W>(step: (W, byte) -> W, start: W, data: seq<byte>, b: byte)
    ensures Fold(step, start, data + [b]) == step(Fold(step, start, data), b)
  {
    assert (data + [b])[..|data|] == data;
  }

  lemma LastBytePolynomial(n: nat)
    ensures Polynomial(Intact(n) + [0x89]) == 0x89
  {
    FoldSnoc(NextCoefficients, 0, Intact(n), 0x89);
    IntactPolynomial(n);
    SmallError();
  }

  lemma LastByteSyndrome(n: nat)
    ensures Trailer(Syndrome(Intact(n) + [0x89]))[0] == 0
  {
    LastBytePolynomial(n);
    SmallError();
  }

  /** An error that passes in every frame: bits 0x89 of the last data byte. */
  lemma LastByteErrorPasses(data: seq<byte>, e: seq<byte>)
    requires data != [] && e == Intact(|data| - 1) + [0x89]
    ensures Accepted(Corrupted(data, e), Trailer(Crc(data))[0], Trailer(Crc(data))[1])
  {
    LastByteSyndrome(|data| - 1);
    ErrorPasses(data, e);
  }

  lemma ErrorPasses(data: seq<byte>, e: seq<byte>)
    requires |data| == |e| && Trailer(Syndrome(e))[0] == 0
    ensures Accepted(Corrupted(data, e), Trailer(Crc(data))[0], Trailer(Crc(data))[1])
  {
    DataErrorRefusedExactly(data, e);
  }

  /** With the data intact a frame is accepted if and only if one of the trailer bytes is, so every error confined to one of them passes. */
  lemma TrailerErrorAcceptedExactly(data: seq<byte>, first: byte, second: byte)
    ensures var trailer := Trailer(Crc(data));
            Accepted(data, Flipped(trailer[0], first), Flipped(trailer[1], second)) <==> first == 0 || second == 0
  {
    var crc := Crc(data);
    SameByte(High(crc), first, 0);
    SameByte(Low(crc), second, 0);
    NoError(High(crc));
    NoError(Low(crc));
  }

  /** The loop over the frame, which sender and receiver share. */
  method ComputeCrc(buffer: array<byte>, size: nat) returns (crc: bv16)
    requires size <= buffer.Length
    ensures crc == Crc(buffer[..size])
  {
    crc := 0xFFFF;
    for i := 0 to size
      invariant crc == Crc(buffer[..i])
    {
      FoldOne(TableStep, 0xFFFF, buffer[..], i);
      crc := TableStep(crc, buffer[i]);
    }
  }
}
