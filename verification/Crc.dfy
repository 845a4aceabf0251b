/** The frame check sequence of the serial link: the table-driven CRC-16 of the
    data pump, and the shift register of appendix C of RFC 1662 it stands for.
 */
module Crc {

  type Octet = bv8

  const INITIAL_FCS: bv16 := 0xFFFF

  // What the register holds after a good frame and its own check octets.
  const GOOD_FCS: bv16 := 0xF0B8

  // The data pump's table of 256 constants, as sixteen rows of sixteen.
  const FCS_TABLE: seq<seq<bv16>> := [
    [0x0000, 0x1189, 0x2312, 0x329b, 0x4624, 0x57ad, 0x6536, 0x74bf,
     0x8c48, 0x9dc1, 0xaf5a, 0xbed3, 0xca6c, 0xdbe5, 0xe97e, 0xf8f7],
    [0x1081, 0x0108, 0x3393, 0x221a, 0x56a5, 0x472c, 0x75b7, 0x643e,
     0x9cc9, 0x8d40, 0xbfdb, 0xae52, 0xdaed, 0xcb64, 0xf9ff, 0xe876],
    [0x2102, 0x308b, 0x0210, 0x1399, 0x6726, 0x76af, 0x4434, 0x55bd,
     0xad4a, 0xbcc3, 0x8e58, 0x9fd1, 0xeb6e, 0xfae7, 0xc87c, 0xd9f5],
    [0x3183, 0x200a, 0x1291, 0x0318, 0x77a7, 0x662e, 0x54b5, 0x453c,
     0xbdcb, 0xac42, 0x9ed9, 0x8f50, 0xfbef, 0xea66, 0xd8fd, 0xc974],
    [0x4204, 0x538d, 0x6116, 0x709f, 0x0420, 0x15a9, 0x2732, 0x36bb,
     0xce4c, 0xdfc5, 0xed5e, 0xfcd7, 0x8868, 0x99e1, 0xab7a, 0xbaf3],
    [0x5285, 0x430c, 0x7197, 0x601e, 0x14a1, 0x0528, 0x37b3, 0x263a,
     0xdecd, 0xcf44, 0xfddf, 0xec56, 0x98e9, 0x8960, 0xbbfb, 0xaa72],
    [0x6306, 0x728f, 0x4014, 0x519d, 0x2522, 0x34ab, 0x0630, 0x17b9,
     0xef4e, 0xfec7, 0xcc5c, 0xddd5, 0xa96a, 0xb8e3, 0x8a78, 0x9bf1],
    [0x7387, 0x620e, 0x5095, 0x411c, 0x35a3, 0x242a, 0x16b1, 0x0738,
     0xffcf, 0xee46, 0xdcdd, 0xcd54, 0xb9eb, 0xa862, 0x9af9, 0x8b70],
    [0x8408, 0x9581, 0xa71a, 0xb693, 0xc22c, 0xd3a5, 0xe13e, 0xf0b7,
     0x0840, 0x19c9, 0x2b52, 0x3adb, 0x4e64, 0x5fed, 0x6d76, 0x7cff],
    [0x9489, 0x8500, 0xb79b, 0xa612, 0xd2ad, 0xc324, 0xf1bf, 0xe036,
     0x18c1, 0x0948, 0x3bd3, 0x2a5a, 0x5ee5, 0x4f6c, 0x7df7, 0x6c7e],
    [0xa50a, 0xb483, 0x8618, 0x9791, 0xe32e, 0xf2a7, 0xc03c, 0xd1b5,
     0x2942, 0x38cb, 0x0a50, 0x1bd9, 0x6f66, 0x7eef, 0x4c74, 0x5dfd],
    [0xb58b, 0xa402, 0x9699, 0x8710, 0xf3af, 0xe226, 0xd0bd, 0xc134,
     0x39c3, 0x284a, 0x1ad1, 0x0b58, 0x7fe7, 0x6e6e, 0x5cf5, 0x4d7c],
    [0xc60c, 0xd785, 0xe51e, 0xf497, 0x8028, 0x91a1, 0xa33a, 0xb2b3,
     0x4a44, 0x5bcd, 0x6956, 0x78df, 0x0c60, 0x1de9, 0x2f72, 0x3efb],
    [0xd68d, 0xc704, 0xf59f, 0xe416, 0x90a9, 0x8120, 0xb3bb, 0xa232,
     0x5ac5, 0x4b4c, 0x79d7, 0x685e, 0x1ce1, 0x0d68, 0x3ff3, 0x2e7a],
    [0xe70e, 0xf687, 0xc41c, 0xd595, 0xa12a, 0xb0a3, 0x8238, 0x93b1,
     0x6b46, 0x7acf, 0x4854, 0x59dd, 0x2d62, 0x3ceb, 0x0e70, 0x1ff9],
    [0xf78f, 0xe606, 0xd49d, 0xc514, 0xb1ab, 0xa022, 0x92b9, 0x8330,
     0x7bc7, 0x6a4e, 0x58d5, 0x495c, 0x3de3, 0x2c6a, 0x1ef1, 0x0f78]
  ]

  // hdlc_crc16: one table lookup per octet.
  function Crc16(fcs: bv16, octet: Octet): bv16 {
    (fcs >> 8) ^ Lookup((fcs ^ octet as bv16) & 0xFF)
  }

  function Lookup(index: bv16): bv16
    requires index <= 0xFF
  {
    TableShape();
    EntryOf(FCS_TABLE, index)
  }

  function EntryOf(table: seq<seq<bv16>>, index: bv16): bv16
    requires |table| == 16 && forall i :: 0 <= i < 16 ==> |table[i]| == 16
    requires index <= 0xFF
  {
    table[(index >> 4) as int][(index & 0xF) as int]
  }

  function Fcs(fcs: bv16, data: seq<Octet>): bv16
    decreases |data|
  {
    if data == [] then fcs else Fcs(Crc16(fcs, data[0]), data[1..])
  }

  // The two octets appended to a frame, low octet first.
  function CheckOctets(fcs: bv16): (check: seq<Octet>)
    ensures |check| == 2
  {
    var crc := fcs ^ 0xFFFF;
    [(crc & 0xFF) as Octet, (crc >> 8) as Octet]
  }

  // The receiver's test: the last two octets are those the sender would have appended.
  predicate Accepts(frame: seq<Octet>) {
    |frame| >= 2 && frame[|frame| - 2..] == CheckOctets(Fcs(INITIAL_FCS, frame[..|frame| - 2]))
  }

  // ---------------------------------------------------------------------------
  // Reference: the shift register, one bit at a time, least significant bit first
  // ---------------------------------------------------------------------------

  type Register = r: seq<bool> | |r| == 16 witness seq(16, _ => false)

  // x^16 + x^12 + x^5 + 1, low bit first: where the feedback goes.
  predicate Tap(i: int) {
    i == 3 || i == 10 || i == 15
  }

  function Clock(r: Register, bit: bool): Register {
    seq(16, i requires 0 <= i < 16 => (i < 15 && r[i + 1]) != (Tap(i) && r[0] != bit))
  }

  function ClockAll(r: Register, bits: seq<bool>): Register
    decreases |bits|
  {
    if bits == [] then r else ClockAll(Clock(r, bits[0]), bits[1..])
  }

  const MASKS: seq<bv16> := [0x1, 0x2, 0x4, 0x8, 0x10, 0x20, 0x40, 0x80,
                             0x100, 0x200, 0x400, 0x800, 0x1000, 0x2000, 0x4000, 0x8000]

  predicate Has(x: bv16, mask: bv16) {
    x & mask != 0
  }

  // A 16-bit word as the register holding it.
  function Of(x: bv16): Register {
    seq(16, i requires 0 <= i < 16 => Has(x, MASKS[i]))
  }

  // The bits of the octets in the order they are sent.
  function OctetBits(octet: Octet): (bits: seq<bool>)
    ensures |bits| == 8
  {
    Of(octet as bv16)[..8]
  }

  function Bits(data: seq<Octet>): (bits: seq<bool>)
    ensures |bits| == 8 * |data|
  {
    if data == [] then [] else OctetBits(data[0]) + Bits(data[1..])
  }

  // ---------------------------------------------------------------------------
  // The register is linear
  // ---------------------------------------------------------------------------

  function Xor(x: Register, y: Register): Register {
    seq(16, i requires 0 <= i < 16 => x[i] != y[i])
  }

  lemma ClockXor(x: Register, y: Register, a: bool, b: bool)
    ensures Clock(Xor(x, y), a != b) == Xor(Clock(x, a), Clock(y, b))
  {}

  function Idle(r: Register, n: nat): Register
    decreases n
  {
    if n == 0 then r else Idle(Clock(r, false), n - 1)
  }

  lemma {:induction false} IdleXor(x: Register, y: Register, n: nat)
    ensures Idle(Xor(x, y), n) == Xor(Idle(x, n), Idle(y, n))
    decreases n
  {
    if n > 0 {
      ClockXor(x, y, false, false);
      IdleXor(Clock(x, false), Clock(y, false), n - 1);
    }
  }

  // The register moved along by n places, nothing fed back.
  function Down(x: Register, n: nat): Register {
    seq(16, i requires 0 <= i < 16 => i + n < 16 && x[i + n])
  }

  lemma DownOne(x: Register)
    ensures Clock(x, x[0]) == Down(x, 1)
  {}

  // Bits clocked in are idle clocks after an exclusive or.
  lemma {:induction false} ClocksAreIdle(r: Register, x: Register, n: nat)
    requires n <= 16
    ensures Xor(ClockAll(r, x[..n]), Down(x, n)) == Idle(Xor(r, x), n)
    decreases n
  {
    if n > 0 {
      var y := Down(x, 1);
      DownOne(x);
      ClockXor(r, x, x[0], x[0]);
      assert x[..n][1..] == y[..n - 1];
      ClocksAreIdle(Clock(r, x[0]), y, n - 1);
      assert Down(y, n - 1) == Down(x, n);
    } else {
      assert Down(x, 0) == x;
    }
  }

  // Idle clocks only move a register whose low places are clear.
  lemma {:induction false} IdleIsDown(x: Register, n: nat)
    requires n <= 16
    requires forall i :: 0 <= i < n ==> !x[i]
    ensures Idle(x, n) == Down(x, n)
    decreases n
  {
    if n > 0 {
      DownOne(x);
      var y := Down(x, 1);
      IdleIsDown(y, n - 1);
      assert Down(y, n - 1) == Down(x, n);
    } else {
      assert Down(x, 0) == x;
    }
  }

  // ---------------------------------------------------------------------------
  // Words and registers
  // ---------------------------------------------------------------------------

  predicate Single(mask: bv16) {
    mask & (mask - 1) == 0
  }

  predicate Doubles(mask: bv16, double: bv16) {
    mask < 0x8000 && double == mask + mask
  }

  lemma SingleMask(i: nat)
    requires i < 16
    ensures Single(MASKS[i])
  {}

  lemma DoubleMask(i: nat)
    requires i < 15
    ensures Doubles(MASKS[i], MASKS[i + 1])
  {}

  lemma HasXor(x: bv16, y: bv16, mask: bv16)
    requires Single(mask)
    ensures Has(x ^ y, mask) == (Has(x, mask) != Has(y, mask))
  {}

  lemma HasHalf(x: bv16, mask: bv16, double: bv16)
    requires Doubles(mask, double)
    ensures Has(x >> 1, mask) == Has(x, double)
  {}

  lemma HasTop(x: bv16)
    ensures !Has(x >> 1, 0x8000)
  {}

  lemma BitXor(x: bv16, y: bv16, i: nat)
    requires i < 16
    ensures Of(x ^ y)[i] == (Of(x)[i] != Of(y)[i])
  {
    SingleMask(i);
    HasXor(x, y, MASKS[i]);
  }

  lemma OfXor(x: bv16, y: bv16)
    ensures Of(x ^ y) == Xor(Of(x), Of(y))
  {
    var sum, a, b := Of(x ^ y), Of(x), Of(y);
    forall i | 0 <= i < 16
      ensures sum[i] == (a[i] != b[i])
    {
      BitXor(x, y, i);
    }
  }

  lemma BitHalf(x: bv16, i: nat)
    requires i < 16
    ensures Of(x >> 1)[i] == (i < 15 && Of(x)[i + 1])
  {
    if i < 15 {
      DoubleMask(i);
      HasHalf(x, MASKS[i], MASKS[i + 1]);
    } else {
      HasTop(x);
    }
  }

  lemma OfHalf(x: bv16)
    ensures Of(x >> 1) == Down(Of(x), 1)
  {
    var half, down := Of(x >> 1), Down(Of(x), 1);
    forall i | 0 <= i < 16
      ensures half[i] == down[i]
    {
      BitHalf(x, i);
    }
  }

  lemma NoMaskNoBit(x: bv16)
    requires !Has(x, 0x1) && !Has(x, 0x2) && !Has(x, 0x4) && !Has(x, 0x8)
    requires !Has(x, 0x10) && !Has(x, 0x20) && !Has(x, 0x40) && !Has(x, 0x80)
    requires !Has(x, 0x100) && !Has(x, 0x200) && !Has(x, 0x400) && !Has(x, 0x800)
    requires !Has(x, 0x1000) && !Has(x, 0x2000) && !Has(x, 0x4000) && !Has(x, 0x8000)
    ensures x == 0
  {}

  lemma XorZero(x: bv16, y: bv16)
    requires x ^ y == 0
    ensures x == y
  {}

  lemma OfInjective(x: bv16, y: bv16)
    requires Of(x) == Of(y)
    ensures x == y
  {
    OfXor(x, y);
    assert Of(x ^ y) == seq(16, _ => false);
    ClearIsZero(x ^ y);
    XorZero(x, y);
  }

  lemma ClearIsZero(x: bv16)
    requires Of(x) == seq(16, _ => false)
    ensures x == 0
  {
    var r := Of(x);
    assert forall i :: 0 <= i < 16 ==> !r[i];
    assert !r[0] && !r[1] && !r[2] && !r[3] && !r[4] && !r[5] && !r[6] && !r[7];
    assert !r[8] && !r[9] && !r[10] && !r[11] && !r[12] && !r[13] && !r[14] && !r[15];
    NoMaskNoBit(x);
  }

  // One idle clock on the word.
  function Shift(x: bv16): bv16 {
    if x & 1 == 1 then (x >> 1) ^ 0x8408 else x >> 1
  }

  function ShiftN(x: bv16, n: nat): bv16
    decreases n
  {
    if n == 0 then x else ShiftN(Shift(x), n - 1)
  }

  lemma OfPolynomial()
    ensures forall i :: 0 <= i < 16 ==> Of(0x8408)[i] == Tap(i)
  {
    var p := Of(0x8408);
    assert !p[0] && !p[1] && !p[2] && p[3] && !p[4] && !p[5] && !p[6] && !p[7];
    assert !p[8] && !p[9] && p[10] && !p[11] && !p[12] && !p[13] && !p[14] && p[15];
  }

  lemma LowBit(x: bv16)
    ensures Has(x, 1) == (x & 1 == 1)
  {}

  lemma OddClock(r: Register, polynomial: Register)
    requires r[0] && forall i :: 0 <= i < 16 ==> polynomial[i] == Tap(i)
    ensures Xor(Down(r, 1), polynomial) == Clock(r, false)
  {}

  lemma EvenClock(r: Register)
    requires !r[0]
    ensures Down(r, 1) == Clock(r, false)
  {}

  lemma OfShift(x: bv16)
    ensures Of(Shift(x)) == Clock(Of(x), false)
  {
    var half := x >> 1;
    LowBit(x);
    OfHalf(x);
    if x & 1 == 1 {
      OfXor(half, 0x8408);
      OfPolynomial();
      OddClock(Of(x), Of(0x8408));
    } else {
      EvenClock(Of(x));
    }
  }

  lemma IdleFirst(r: Register, first: Register, last: Register, n: nat)
    requires n > 0 && first == Clock(r, false) && last == Idle(first, n - 1)
    ensures last == Idle(r, n)
  {}

  lemma {:induction false} OfShiftN(x: bv16, n: nat)
    ensures Of(ShiftN(x, n)) == Idle(Of(x), n)
    decreases n
  {
    if n > 0 {
      var y := Shift(x);
      OfShift(x);
      OfShiftN(y, n - 1);
      IdleFirst(Of(x), Of(y), Of(ShiftN(y, n - 1)), n);
    }
  }

  // ---------------------------------------------------------------------------
  // The table
  // ---------------------------------------------------------------------------

  lemma TableShape()
    ensures |FCS_TABLE| == 16
    ensures forall i :: 0 <= i < 16 ==> |FCS_TABLE[i]| == 16
  {}

  predicate IsXor(entry: bv16, x: bv16, y: bv16) {
    entry == x ^ y
  }

  predicate Answers(entry: bv16, x: bv16) {
    entry == ShiftN(x, 8)
  }

  // A row starts with the answer to its high nibble, which is then added to each
  // entry of the table's first row.
  predicate RowFits(row: seq<bv16>, first: seq<bv16>, high: bv16) {
    && |row| == |first| == 16
    && Answers(row[0], high)
    && IsXor(row[0], row[0], first[0]) && IsXor(row[1], row[0], first[1])
    && IsXor(row[2], row[0], first[2]) && IsXor(row[3], row[0], first[3])
    && IsXor(row[4], row[0], first[4]) && IsXor(row[5], row[0], first[5])
    && IsXor(row[6], row[0], first[6]) && IsXor(row[7], row[0], first[7])
    && IsXor(row[8], row[0], first[8]) && IsXor(row[9], row[0], first[9])
    && IsXor(row[10], row[0], first[10]) && IsXor(row[11], row[0], first[11])
    && IsXor(row[12], row[0], first[12]) && IsXor(row[13], row[0], first[13])
    && IsXor(row[14], row[0], first[14]) && IsXor(row[15], row[0], first[15])
  }

  lemma RowAt(row: seq<bv16>, first: seq<bv16>, high: bv16, i: nat)
    requires RowFits(row, first, high) && i < 16
    ensures IsXor(row[i], row[0], first[i])
  {
    match i
    case 0 => case 1 => case 2 => case 3 => case 4 => case 5 => case 6 => case 7 =>
    case 8 => case 9 => case 10 => case 11 => case 12 => case 13 => case 14 =>
    case _ => assert i == 15;
  }

  predicate LowEntriesFit(row: seq<bv16>) {
    && |row| == 16
    && Answers(row[0], 0) && Answers(row[1], 1) && Answers(row[2], 2) && Answers(row[3], 3)
    && Answers(row[4], 4) && Answers(row[5], 5) && Answers(row[6], 6) && Answers(row[7], 7)
  }

  predicate HighEntriesFit(row: seq<bv16>) {
    && |row| == 16
    && Answers(row[8], 8) && Answers(row[9], 9) && Answers(row[10], 10) && Answers(row[11], 11)
    && Answers(row[12], 12) && Answers(row[13], 13) && Answers(row[14], 14) && Answers(row[15], 15)
  }

  lemma LowEntries()
    ensures |FCS_TABLE| == 16 && LowEntriesFit(FCS_TABLE[0])
  {}

  lemma HighEntries()
    ensures |FCS_TABLE| == 16 && HighEntriesFit(FCS_TABLE[0])
  {}

  lemma EntryAt(row: seq<bv16>, x: bv16)
    requires LowEntriesFit(row) && HighEntriesFit(row) && x < 16
    ensures Answers(row[x as int], x)
  {}

  // The first n rows pass. Recursive, so that the solver does not open all of it at once.
  predicate RowsFit(table: seq<seq<bv16>>, n: bv16)
    requires |table| == 16 && n <= 16
    decreases n as int
  {
    n > 0 ==> RowFits(table[(n - 1) as int], table[0], (n - 1) << 4) && RowsFit(table, n - 1)
  }

  lemma {:induction false} RowOf(table: seq<seq<bv16>>, n: bv16, k: bv16)
    requires |table| == 16 && k < n <= 16
    requires RowsFit(table, n)
    ensures RowFits(table[k as int], table[0], k << 4)
    decreases n as int
  {
    if k < n - 1 {
      RowOf(table, n - 1, k);
    } else {
      assert k == n - 1;
    }
  }

  lemma Rows0And1()
    ensures |FCS_TABLE| == 16
    ensures RowFits(FCS_TABLE[0], FCS_TABLE[0], 0x00) && RowFits(FCS_TABLE[1], FCS_TABLE[0], 0x10)
  {}

  lemma Rows2And3()
    ensures |FCS_TABLE| == 16
    ensures RowFits(FCS_TABLE[2], FCS_TABLE[0], 0x20) && RowFits(FCS_TABLE[3], FCS_TABLE[0], 0x30)
  {}

  lemma Rows4And5()
    ensures |FCS_TABLE| == 16
    ensures RowFits(FCS_TABLE[4], FCS_TABLE[0], 0x40) && RowFits(FCS_TABLE[5], FCS_TABLE[0], 0x50)
  {}

  lemma Rows6And7()
    ensures |FCS_TABLE| == 16
    ensures RowFits(FCS_TABLE[6], FCS_TABLE[0], 0x60) && RowFits(FCS_TABLE[7], FCS_TABLE[0], 0x70)
  {}

  lemma Rows8And9()
    ensures |FCS_TABLE| == 16
    ensures RowFits(FCS_TABLE[8], FCS_TABLE[0], 0x80) && RowFits(FCS_TABLE[9], FCS_TABLE[0], 0x90)
  {}

  lemma Rows10And11()
    ensures |FCS_TABLE| == 16
    ensures RowFits(FCS_TABLE[10], FCS_TABLE[0], 0xA0) && RowFits(FCS_TABLE[11], FCS_TABLE[0], 0xB0)
  {}

  lemma Rows12And13()
    ensures |FCS_TABLE| == 16
    ensures RowFits(FCS_TABLE[12], FCS_TABLE[0], 0xC0) && RowFits(FCS_TABLE[13], FCS_TABLE[0], 0xD0)
  {}

  lemma Rows14And15()
    ensures |FCS_TABLE| == 16
    ensures RowFits(FCS_TABLE[14], FCS_TABLE[0], 0xE0) && RowFits(FCS_TABLE[15], FCS_TABLE[0], 0xF0)
  {}

  lemma OneMoreRow(table: seq<seq<bv16>>, n: bv16, k: nat, high: bv16)
    requires |table| == 16 && n < 16 && k == n as int && high == n << 4
    requires RowsFit(table, n)
    requires RowFits(table[k], table[0], high)
    ensures RowsFit(table, n + 1)
  {}

  // The number of rows is a variable here, so that the recursion above is not unrolled.
  lemma TwoRows(n: bv16)
    requires n == 2
    ensures |FCS_TABLE| == 16 && RowsFit(FCS_TABLE, n)
  {
    Rows0And1();
    OneMoreRow(FCS_TABLE, n - 2, 0, 0x00);
    OneMoreRow(FCS_TABLE, n - 1, 1, 0x10);
  }

  lemma FourRows(n: bv16)
    requires n == 4
    ensures |FCS_TABLE| == 16 && RowsFit(FCS_TABLE, n)
  {
    TwoRows(n - 2);
    Rows2And3();
    OneMoreRow(FCS_TABLE, n - 2, 2, 0x20);
    OneMoreRow(FCS_TABLE, n - 1, 3, 0x30);
  }

  lemma SixRows(n: bv16)
    requires n == 6
    ensures |FCS_TABLE| == 16 && RowsFit(FCS_TABLE, n)
  {
    FourRows(n - 2);
    Rows4And5();
    OneMoreRow(FCS_TABLE, n - 2, 4, 0x40);
    OneMoreRow(FCS_TABLE, n - 1, 5, 0x50);
  }

  lemma EightRows(n: bv16)
    requires n == 8
    ensures |FCS_TABLE| == 16 && RowsFit(FCS_TABLE, n)
  {
    SixRows(n - 2);
    Rows6And7();
    OneMoreRow(FCS_TABLE, n - 2, 6, 0x60);
    OneMoreRow(FCS_TABLE, n - 1, 7, 0x70);
  }

  lemma TenRows(n: bv16)
    requires n == 10
    ensures |FCS_TABLE| == 16 && RowsFit(FCS_TABLE, n)
  {
    EightRows(n - 2);
    Rows8And9();
    OneMoreRow(FCS_TABLE, n - 2, 8, 0x80);
    OneMoreRow(FCS_TABLE, n - 1, 9, 0x90);
  }

  lemma TwelveRows(n: bv16)
    requires n == 12
    ensures |FCS_TABLE| == 16 && RowsFit(FCS_TABLE, n)
  {
    TenRows(n - 2);
    Rows10And11();
    OneMoreRow(FCS_TABLE, n - 2, 10, 0xA0);
    OneMoreRow(FCS_TABLE, n - 1, 11, 0xB0);
  }

  lemma FourteenRows(n: bv16)
    requires n == 14
    ensures |FCS_TABLE| == 16 && RowsFit(FCS_TABLE, n)
  {
    TwelveRows(n - 2);
    Rows12And13();
    OneMoreRow(FCS_TABLE, n - 2, 12, 0xC0);
    OneMoreRow(FCS_TABLE, n - 1, 13, 0xD0);
  }

  lemma AllRows(n: bv16)
    requires n == 16
    ensures |FCS_TABLE| == 16 && RowsFit(FCS_TABLE, n)
  {
    FourteenRows(n - 2);
    Rows14And15();
    OneMoreRow(FCS_TABLE, n - 2, 14, 0xE0);
    OneMoreRow(FCS_TABLE, n - 1, 15, 0xF0);
  }

  lemma LinearEntry(x: bv16, entry: bv16, high: bv16, low: bv16, h: bv16, l: bv16)
    requires x == high ^ low
    requires IsXor(entry, h, l) && Answers(h, high) && Answers(l, low)
    ensures Of(entry) == Idle(Of(x), 8)
  {
    OfXor(h, l);
    OfShiftN(high, 8);
    OfShiftN(low, 8);
    OfXor(high, low);
    IdleXor(Of(high), Of(low), 8);
  }

  lemma Nibbles(x: bv16)
    requires x <= 0xFF
    ensures (x >> 4) < 16 && (x & 0xF) < 16
    ensures x == ((x >> 4) << 4) ^ (x & 0xF)
  {}

  lemma EntryIsEightClocks(row: seq<bv16>, first: seq<bv16>, x: bv16, high: bv16, low: bv16)
    requires RowFits(row, first, high)
    requires low < 16 && x == high ^ low && Answers(first[low as int], low)
    ensures Of(row[low as int]) == Idle(Of(x), 8)
  {
    RowAt(row, first, high, low as int);
    LinearEntry(x, row[low as int], high, low, row[0], first[low as int]);
  }

  lemma RowIsEightClocks(table: seq<seq<bv16>>, n: bv16, x: bv16, k: bv16, high: bv16, low: bv16)
    requires |table| == 16 && n <= 16 && k < n && RowsFit(table, n)
    requires high == k << 4 && low < 16 && x == high ^ low
    requires |table[0]| == 16 && Answers(table[0][low as int], low)
    ensures |table[k as int]| == 16 && Of(table[k as int][low as int]) == Idle(Of(x), 8)
  {
    RowOf(table, n, k);
    EntryIsEightClocks(table[k as int], table[0], x, high, low);
  }

  lemma TableIsEightClocks(table: seq<seq<bv16>>, n: bv16, x: bv16)
    requires |table| == 16 && forall i :: 0 <= i < 16 ==> |table[i]| == 16
    requires n == 16 && RowsFit(table, n)
    requires x <= 0xFF && (x & 0xF) < 16 && Answers(table[0][(x & 0xF) as int], x & 0xF)
    ensures Of(EntryOf(table, x)) == Idle(Of(x), 8)
  {
    Nibbles(x);
    RowIsEightClocks(table, n, x, x >> 4, (x >> 4) << 4, x & 0xF);
  }

  lemma FirstRowAt(low: bv16)
    requires low < 16
    ensures |FCS_TABLE| == 16 && |FCS_TABLE[0]| == 16 && Answers(FCS_TABLE[0][low as int], low)
  {
    LowEntries();
    HighEntries();
    EntryAt(FCS_TABLE[0], low);
  }

  lemma LookupIsEightClocks(x: bv16)
    requires x <= 0xFF
    ensures Of(Lookup(x)) == Idle(Of(x), 8)
  {
    TableShape();
    AllRows(16);
    Nibbles(x);
    FirstRowAt(x & 0xF);
    TableIsEightClocks(FCS_TABLE, 16, x);
  }

  // ---------------------------------------------------------------------------
  // The table-driven CRC is the shift register
  // ---------------------------------------------------------------------------

  predicate Splits(x: bv16, y: bv16, high: bv16, low: bv16) {
    x ^ y == high ^ low
  }

  lemma SplitWord(fcs: bv16, octet: bv16)
    requires octet <= 0xFF
    ensures Splits(fcs, octet, fcs & 0xFF00, (fcs ^ octet) & 0xFF)
  {}

  predicate EightUp(mask: bv16, up: bv16) {
    mask <= 0x80 && up == mask << 8
  }

  lemma MaskEightUp(i: nat)
    requires i < 8
    ensures EightUp(MASKS[i], MASKS[i + 8])
  {}

  lemma HasEightUp(fcs: bv16, mask: bv16, up: bv16)
    requires EightUp(mask, up)
    ensures Has(fcs >> 8, mask) == Has(fcs & 0xFF00, up)
    ensures !Has(fcs & 0xFF00, mask)
    ensures !Has(fcs >> 8, up)
  {}

  lemma BitDown(fcs: bv16, i: nat)
    requires i < 8
    ensures !Of(fcs & 0xFF00)[i]
    ensures Of(fcs >> 8)[i] == Of(fcs & 0xFF00)[i + 8]
  {
    MaskEightUp(i);
    HasEightUp(fcs, MASKS[i], MASKS[i + 8]);
  }

  lemma BitGone(fcs: bv16, i: nat)
    requires 8 <= i < 16
    ensures !Of(fcs >> 8)[i]
  {
    MaskEightUp(i - 8);
    HasEightUp(fcs, MASKS[i - 8], MASKS[i]);
  }

  lemma MovedDown(high: Register, down: Register)
    requires forall i :: 0 <= i < 8 ==> !high[i] && down[i] == high[i + 8]
    requires forall i :: 8 <= i < 16 ==> !down[i]
    ensures Idle(high, 8) == down
  {
    IdleIsDown(high, 8);
    assert Down(high, 8) == down;
  }

  // The high octet moved down: what the eight clocks do to it.
  lemma HighOctetClocks(fcs: bv16)
    ensures Idle(Of(fcs & 0xFF00), 8) == Of(fcs >> 8)
  {
    var high, down := Of(fcs & 0xFF00), Of(fcs >> 8);
    forall i | 0 <= i < 8
      ensures !high[i] && down[i] == high[i + 8]
    {
      BitDown(fcs, i);
    }
    forall i | 8 <= i < 16
      ensures !down[i]
    {
      BitGone(fcs, i);
    }
    MovedDown(high, down);
  }

  lemma HasHigh(octet: Octet, mask: bv16, up: bv16)
    requires EightUp(mask, up)
    ensures !Has(octet as bv16, up)
  {}

  lemma OctetClocks(r: Register, octet: Octet)
    ensures ClockAll(r, OctetBits(octet)) == Idle(Xor(r, Of(octet as bv16)), 8)
  {
    var x := Of(octet as bv16);
    forall i | 8 <= i < 16
      ensures !x[i]
    {
      MaskEightUp(i - 8);
      HasHigh(octet, MASKS[i - 8], MASKS[i]);
    }
    ClocksAreIdle(r, x, 8);
    var clocked := ClockAll(r, x[..8]);
    assert forall i :: 0 <= i < 8 ==> !Down(x, 8)[i];
    assert Xor(clocked, Down(x, 8)) == clocked;
  }

  lemma Recombine(fcs: bv16, octet: bv16, high: bv16, low: bv16, down: bv16, entry: bv16)
    requires Splits(fcs, octet, high, low)
    requires Idle(Of(high), 8) == Of(down) && Idle(Of(low), 8) == Of(entry)
    ensures Of(down ^ entry) == Idle(Xor(Of(fcs), Of(octet)), 8)
  {
    OfXor(fcs, octet);
    OfXor(high, low);
    OfXor(down, entry);
    IdleXor(Of(high), Of(low), 8);
  }

  lemma SumIsEightClocks(fcs: bv16, octet: bv16, low: bv16, entry: bv16, down: bv16)
    requires octet <= 0xFF && low == (fcs ^ octet) & 0xFF && down == fcs >> 8
    requires Of(entry) == Idle(Of(low), 8)
    ensures Of(down ^ entry) == Idle(Xor(Of(fcs), Of(octet)), 8)
  {
    SplitWord(fcs, octet);
    HighOctetClocks(fcs);
    Recombine(fcs, octet, fcs & 0xFF00, low, down, entry);
  }

  lemma Crc16IsEightClocks(fcs: bv16, octet: Octet)
    ensures Of(Crc16(fcs, octet)) == ClockAll(Of(fcs), OctetBits(octet))
  {
    var low := (fcs ^ octet as bv16) & 0xFF;
    LookupIsEightClocks(low);
    SumIsEightClocks(fcs, octet as bv16, low, Lookup(low), fcs >> 8);
    OctetClocks(Of(fcs), octet);
  }

  lemma {:induction false} ClockAllAppend(r: Register, s: seq<bool>, t: seq<bool>)
    ensures ClockAll(r, s + t) == ClockAll(ClockAll(r, s), t)
    decreases |s|
  {
    if s == [] {
      assert s + t == t;
    } else {
      assert (s + t)[1..] == s[1..] + t;
      ClockAllAppend(Clock(r, s[0]), s[1..], t);
    }
  }

  // The table-driven CRC is the bit-by-bit register, for every octet sequence.
  lemma {:induction false} FcsIsClockAll(fcs: bv16, data: seq<Octet>)
    ensures Of(Fcs(fcs, data)) == ClockAll(Of(fcs), Bits(data))
    decreases |data|
  {
    if data != [] {
      Crc16IsEightClocks(fcs, data[0]);
      FcsIsClockAll(Crc16(fcs, data[0]), data[1..]);
      ClockAllAppend(Of(fcs), OctetBits(data[0]), Bits(data[1..]));
    }
  }
}
