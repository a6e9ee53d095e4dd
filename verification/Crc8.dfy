/**
 The package checksum (Client/Src/CRC8.cpp, Firmware/UARTEthernetBridge/crc8.cpp): a table-driven CRC-8.

 The reference definition is bit-serial division by x^8+x^5+x^4+1 (0x31) with the register preset to 0xFF, one message
 bit at a time, most significant bit first.  The two table loops are proved equal to it, and the error-detection
 properties are proved about it.
 */
module Crc8 {
  import opened Bytes

  // ---------------------------------------------------------------- reference: bit-serial division

  function FeedBit(reg: byte, bit: bool): byte {
    (reg << 1) ^ (if (reg & 0x80 != 0) != bit then 0x31 else 0)
  }

  /** A register fed with bits from the left. */
  function Fold<R>(feed: (R, bool) -> R, reg: R, bits: seq<bool>): R
    decreases |bits|
  {
    if bits == [] then reg else Fold(feed, feed(reg, bits[0]), bits[1..])
  }

  function Divide(reg: byte, bits: seq<bool>): byte {
    Fold(FeedBit, reg, bits)
  }

  /** Bit `k` of a byte, most significant first. */
  function BitAt(b: byte, k: nat): bool
    requires k < 8
  {
    match k
    case 0 => b & 0x80 != 0
    case 1 => b & 0x40 != 0
    case 2 => b & 0x20 != 0
    case 3 => b & 0x10 != 0
    case 4 => b & 0x08 != 0
    case 5 => b & 0x04 != 0
    case 6 => b & 0x02 != 0
    case _ => b & 0x01 != 0
  }

  function BitsOf(b: byte): seq<bool> {
    seq(8, k requires 0 <= k < 8 => BitAt(b, k))
  }

  function Bits(msg: seq<byte>): seq<bool> {
    if msg == [] then [] else BitsOf(msg[0]) + Bits(msg[1..])
  }

  function Checksum(msg: seq<byte>): byte {
    Divide(0xFF, Bits(msg))
  }

  /** The receivers' test: the last byte of the block is the checksum of the bytes before it. */
  predicate Passes(block: seq<byte>)
    requires block != []
  {
    Checksum(block[..|block| - 1]) == block[|block| - 1]
  }

  // ---------------------------------------------------------------- the tables

  /** The client's `Crc8Table`, kept as sixteen rows of sixteen. */
  const CLIENT_0: seq<byte> := [0x00, 0x31, 0x62, 0x53, 0xC4, 0xF5, 0xA6, 0x97,
                                0xB9, 0x88, 0xDB, 0xEA, 0x7D, 0x4C, 0x1F, 0x2E]
  const CLIENT_1: seq<byte> := [0x43, 0x72, 0x21, 0x10, 0x87, 0xB6, 0xE5, 0xD4,
                                0xFA, 0xCB, 0x98, 0xA9, 0x3E, 0x0F, 0x5C, 0x6D]
  const CLIENT_2: seq<byte> := [0x86, 0xB7, 0xE4, 0xD5, 0x42, 0x73, 0x20, 0x11,
                                0x3F, 0x0E, 0x5D, 0x6C, 0xFB, 0xCA, 0x99, 0xA8]
  const CLIENT_3: seq<byte> := [0xC5, 0xF4, 0xA7, 0x96, 0x01, 0x30, 0x63, 0x52,
                                0x7C, 0x4D, 0x1E, 0x2F, 0xB8, 0x89, 0xDA, 0xEB]
  const CLIENT_4: seq<byte> := [0x3D, 0x0C, 0x5F, 0x6E, 0xF9, 0xC8, 0x9B, 0xAA,
                                0x84, 0xB5, 0xE6, 0xD7, 0x40, 0x71, 0x22, 0x13]
  const CLIENT_5: seq<byte> := [0x7E, 0x4F, 0x1C, 0x2D, 0xBA, 0x8B, 0xD8, 0xE9,
                                0xC7, 0xF6, 0xA5, 0x94, 0x03, 0x32, 0x61, 0x50]
  const CLIENT_6: seq<byte> := [0xBB, 0x8A, 0xD9, 0xE8, 0x7F, 0x4E, 0x1D, 0x2C,
                                0x02, 0x33, 0x60, 0x51, 0xC6, 0xF7, 0xA4, 0x95]
  const CLIENT_7: seq<byte> := [0xF8, 0xC9, 0x9A, 0xAB, 0x3C, 0x0D, 0x5E, 0x6F,
                                0x41, 0x70, 0x23, 0x12, 0x85, 0xB4, 0xE7, 0xD6]
  const CLIENT_8: seq<byte> := [0x7A, 0x4B, 0x18, 0x29, 0xBE, 0x8F, 0xDC, 0xED,
                                0xC3, 0xF2, 0xA1, 0x90, 0x07, 0x36, 0x65, 0x54]
  const CLIENT_9: seq<byte> := [0x39, 0x08, 0x5B, 0x6A, 0xFD, 0xCC, 0x9F, 0xAE,
                                0x80, 0xB1, 0xE2, 0xD3, 0x44, 0x75, 0x26, 0x17]
  const CLIENT_A: seq<byte> := [0xFC, 0xCD, 0x9E, 0xAF, 0x38, 0x09, 0x5A, 0x6B,
                                0x45, 0x74, 0x27, 0x16, 0x81, 0xB0, 0xE3, 0xD2]
  const CLIENT_B: seq<byte> := [0xBF, 0x8E, 0xDD, 0xEC, 0x7B, 0x4A, 0x19, 0x28,
                                0x06, 0x37, 0x64, 0x55, 0xC2, 0xF3, 0xA0, 0x91]
  const CLIENT_C: seq<byte> := [0x47, 0x76, 0x25, 0x14, 0x83, 0xB2, 0xE1, 0xD0,
                                0xFE, 0xCF, 0x9C, 0xAD, 0x3A, 0x0B, 0x58, 0x69]
  const CLIENT_D: seq<byte> := [0x04, 0x35, 0x66, 0x57, 0xC0, 0xF1, 0xA2, 0x93,
                                0xBD, 0x8C, 0xDF, 0xEE, 0x79, 0x48, 0x1B, 0x2A]
  const CLIENT_E: seq<byte> := [0xC1, 0xF0, 0xA3, 0x92, 0x05, 0x34, 0x67, 0x56,
                                0x78, 0x49, 0x1A, 0x2B, 0xBC, 0x8D, 0xDE, 0xEF]
  const CLIENT_F: seq<byte> := [0x82, 0xB3, 0xE0, 0xD1, 0x46, 0x77, 0x24, 0x15,
                                0x3B, 0x0A, 0x59, 0x68, 0xFF, 0xCE, 0x9D, 0xAC]
  const CLIENT_TABLE: seq<seq<byte>> :=
    [CLIENT_0, CLIENT_1, CLIENT_2, CLIENT_3, CLIENT_4, CLIENT_5, CLIENT_6, CLIENT_7,
     CLIENT_8, CLIENT_9, CLIENT_A, CLIENT_B, CLIENT_C, CLIENT_D, CLIENT_E, CLIENT_F]

  /** The firmware's `Crc8Table`. */
  const FIRMWARE_0: seq<byte> := [0x00, 0x31, 0x62, 0x53, 0xC4, 0xF5, 0xA6, 0x97,
                                  0xB9, 0x88, 0xDB, 0xEA, 0x7D, 0x4C, 0x1F, 0x2E]
  const FIRMWARE_1: seq<byte> := [0x43, 0x72, 0x21, 0x10, 0x87, 0xB6, 0xE5, 0xD4,
                                  0xFA, 0xCB, 0x98, 0xA9, 0x3E, 0x0F, 0x5C, 0x6D]
  const FIRMWARE_2: seq<byte> := [0x86, 0xB7, 0xE4, 0xD5, 0x42, 0x73, 0x20, 0x11,
                                  0x3F, 0x0E, 0x5D, 0x6C, 0xFB, 0xCA, 0x99, 0xA8]
  const FIRMWARE_3: seq<byte> := [0xC5, 0xF4, 0xA7, 0x96, 0x01, 0x30, 0x63, 0x52,
                                  0x7C, 0x4D, 0x1E, 0x2F, 0xB8, 0x89, 0xDA, 0xEB]
  const FIRMWARE_4: seq<byte> := [0x3D, 0x0C, 0x5F, 0x6E, 0xF9, 0xC8, 0x9B, 0xAA,
                                  0x84, 0xB5, 0xE6, 0xD7, 0x40, 0x71, 0x22, 0x13]
  const FIRMWARE_5: seq<byte> := [0x7E, 0x4F, 0x1C, 0x2D, 0xBA, 0x8B, 0xD8, 0xE9,
                                  0xC7, 0xF6, 0xA5, 0x94, 0x03, 0x32, 0x61, 0x50]
  const FIRMWARE_6: seq<byte> := [0xBB, 0x8A, 0xD9, 0xE8, 0x7F, 0x4E, 0x1D, 0x2C,
                                  0x02, 0x33, 0x60, 0x51, 0xC6, 0xF7, 0xA4, 0x95]
  const FIRMWARE_7: seq<byte> := [0xF8, 0xC9, 0x9A, 0xAB, 0x3C, 0x0D, 0x5E, 0x6F,
                                  0x41, 0x70, 0x23, 0x12, 0x85, 0xB4, 0xE7, 0xD6]
  const FIRMWARE_8: seq<byte> := [0x7A, 0x4B, 0x18, 0x29, 0xBE, 0x8F, 0xDC, 0xED,
                                  0xC3, 0xF2, 0xA1, 0x90, 0x07, 0x36, 0x65, 0x54]
  const FIRMWARE_9: seq<byte> := [0x39, 0x08, 0x5B, 0x6A, 0xFD, 0xCC, 0x9F, 0xAE,
                                  0x80, 0xB1, 0xE2, 0xD3, 0x44, 0x75, 0x26, 0x17]
  const FIRMWARE_A: seq<byte> := [0xFC, 0xCD, 0x9E, 0xAF, 0x38, 0x09, 0x5A, 0x6B,
                                  0x45, 0x74, 0x27, 0x16, 0x81, 0xB0, 0xE3, 0xD2]
  const FIRMWARE_B: seq<byte> := [0xBF, 0x8E, 0xDD, 0xEC, 0x7B, 0x4A, 0x19, 0x28,
                                  0x06, 0x37, 0x64, 0x55, 0xC2, 0xF3, 0xA0, 0x91]
  const FIRMWARE_C: seq<byte> := [0x47, 0x76, 0x25, 0x14, 0x83, 0xB2, 0xE1, 0xD0,
                                  0xFE, 0xCF, 0x9C, 0xAD, 0x3A, 0x0B, 0x58, 0x69]
  const FIRMWARE_D: seq<byte> := [0x04, 0x35, 0x66, 0x57, 0xC0, 0xF1, 0xA2, 0x93,
                                  0xBD, 0x8C, 0xDF, 0xEE, 0x79, 0x48, 0x1B, 0x2A]
  const FIRMWARE_E: seq<byte> := [0xC1, 0xF0, 0xA3, 0x92, 0x05, 0x34, 0x67, 0x56,
                                  0x78, 0x49, 0x1A, 0x2B, 0xBC, 0x8D, 0xDE, 0xEF]
  const FIRMWARE_F: seq<byte> := [0x82, 0xB3, 0xE0, 0xD1, 0x46, 0x77, 0x24, 0x15,
                                  0x3B, 0x0A, 0x59, 0x68, 0xFF, 0xCE, 0x9D, 0xAC]
  const FIRMWARE_TABLE: seq<seq<byte>> :=
    [FIRMWARE_0, FIRMWARE_1, FIRMWARE_2, FIRMWARE_3, FIRMWARE_4, FIRMWARE_5, FIRMWARE_6, FIRMWARE_7,
     FIRMWARE_8, FIRMWARE_9, FIRMWARE_A, FIRMWARE_B, FIRMWARE_C, FIRMWARE_D, FIRMWARE_E, FIRMWARE_F]

  function BitStep(c: byte): byte { (c << 1) ^ (if c & 0x80 != 0 then 0x31 else 0) }

  /** What a table entry has to be: eight division steps applied to the index. */
  function ByteStep(c: byte): byte {
    BitStep(BitStep(BitStep(BitStep(BitStep(BitStep(BitStep(BitStep(c))))))))
  }

  /** Sixteen consecutive values of `f`. */
  function Row(f: byte -> byte, base: byte): seq<byte> {
    [f(base), f(base + 1), f(base + 2), f(base + 3), f(base + 4), f(base + 5), f(base + 6), f(base + 7),
     f(base + 8), f(base + 9), f(base + 10), f(base + 11), f(base + 12), f(base + 13), f(base + 14), f(base + 15)]
  }

  predicate Square(table: seq<seq<byte>>) {
    |table| == 16 && forall r | 0 <= r < 16 :: |table[r]| == 16
  }

  /** `Crc8Table[i]`. */
  function Entry(table: seq<seq<byte>>, i: byte): byte
    requires Square(table)
  {
    table[(i >> 4) as nat][(i & 0xF) as nat]
  }

  /** Indexing by a nibble, spelt without a numeric conversion. */
  function Pick<T>(s: seq<T>, k: byte): T
    requires |s| == 16
  {
    match k
    case 0 => s[0] case 1 => s[1] case 2 => s[2] case 3 => s[3]
    case 4 => s[4] case 5 => s[5] case 6 => s[6] case 7 => s[7]
    case 8 => s[8] case 9 => s[9] case 10 => s[10] case 11 => s[11]
    case 12 => s[12] case 13 => s[13] case 14 => s[14] case _ => s[15]
  }

  lemma PickIsIndex<T>(s: seq<T>, k: byte)
    requires |s| == 16 && k < 16
    ensures s[k as nat] == Pick(s, k)
  {
  }

  lemma PickFromRowLow(f: byte -> byte, base: byte, k: byte)
    requires k < 8
    ensures Pick(Row(f, base), k) == f(base + k)
  {
    assert k == 0 || k == 1 || k == 2 || k == 3 || k == 4 || k == 5 || k == 6 || k == 7;
  }

  lemma PickFromRowHigh(f: byte -> byte, base: byte, k: byte)
    requires 8 <= k < 16
    ensures Pick(Row(f, base), k) == f(base + k)
  {
    assert k == 8 || k == 9 || k == 10 || k == 11 || k == 12 || k == 13 || k == 14 || k == 15;
  }

  /** The sixteen rows hold the values of `f`. */
  ghost predicate HasRows(table: seq<seq<byte>>, f: byte -> byte) {
    && Square(table)
    && table[0] == Row(f, 0x00) && table[1] == Row(f, 0x10) && table[2] == Row(f, 0x20) && table[3] == Row(f, 0x30)
    && table[4] == Row(f, 0x40) && table[5] == Row(f, 0x50) && table[6] == Row(f, 0x60) && table[7] == Row(f, 0x70)
    && table[8] == Row(f, 0x80) && table[9] == Row(f, 0x90) && table[10] == Row(f, 0xA0) && table[11] == Row(f, 0xB0)
    && table[12] == Row(f, 0xC0) && table[13] == Row(f, 0xD0) && table[14] == Row(f, 0xE0) && table[15] == Row(f, 0xF0)
  }

  lemma PickFromTable(f: byte -> byte, table: seq<seq<byte>>, r: byte)
    requires HasRows(table, f) && r < 16
    ensures Pick(table, r) == Row(f, r << 4)
  {
  }

  /** A table made of the sixteen rows of `f` is `f`. */
  lemma RowsMakeTable(f: byte -> byte, table: seq<seq<byte>>, i: byte)
    requires HasRows(table, f)
    ensures Entry(table, i) == f(i)
  {
    var r, k := i >> 4, i & 0xF;
    PickIsIndex(table, r);
    PickFromTable(f, table, r);
    PickIsIndex(table[r as nat], k);
    if k < 8 {
      PickFromRowLow(f, r << 4, k);
    } else {
      PickFromRowHigh(f, r << 4, k);
    }
    assert i == (r << 4) + k;
  }

  lemma ClientRows0()
    ensures CLIENT_0 == Row(ByteStep, 0x00)
    ensures CLIENT_1 == Row(ByteStep, 0x10)
    ensures CLIENT_2 == Row(ByteStep, 0x20)
    ensures CLIENT_3 == Row(ByteStep, 0x30)
  {
  }

  lemma ClientRows1()
    ensures CLIENT_4 == Row(ByteStep, 0x40)
    ensures CLIENT_5 == Row(ByteStep, 0x50)
    ensures CLIENT_6 == Row(ByteStep, 0x60)
    ensures CLIENT_7 == Row(ByteStep, 0x70)
  {
  }

  lemma ClientRows2()
    ensures CLIENT_8 == Row(ByteStep, 0x80)
    ensures CLIENT_9 == Row(ByteStep, 0x90)
    ensures CLIENT_A == Row(ByteStep, 0xA0)
    ensures CLIENT_B == Row(ByteStep, 0xB0)
  {
  }

  lemma ClientRows3()
    ensures CLIENT_C == Row(ByteStep, 0xC0)
    ensures CLIENT_D == Row(ByteStep, 0xD0)
    ensures CLIENT_E == Row(ByteStep, 0xE0)
    ensures CLIENT_F == Row(ByteStep, 0xF0)
  {
  }

  lemma ClientHasRows(f: byte -> byte)
    requires CLIENT_0 == Row(f, 0x00) && CLIENT_1 == Row(f, 0x10)
    requires CLIENT_2 == Row(f, 0x20) && CLIENT_3 == Row(f, 0x30)
    requires CLIENT_4 == Row(f, 0x40) && CLIENT_5 == Row(f, 0x50)
    requires CLIENT_6 == Row(f, 0x60) && CLIENT_7 == Row(f, 0x70)
    requires CLIENT_8 == Row(f, 0x80) && CLIENT_9 == Row(f, 0x90)
    requires CLIENT_A == Row(f, 0xA0) && CLIENT_B == Row(f, 0xB0)
    requires CLIENT_C == Row(f, 0xC0) && CLIENT_D == Row(f, 0xD0)
    requires CLIENT_E == Row(f, 0xE0) && CLIENT_F == Row(f, 0xF0)
    ensures HasRows(CLIENT_TABLE, f)
  {
  }

  lemma TablesAgree()
    ensures CLIENT_TABLE == FIRMWARE_TABLE
  {
    assert CLIENT_0 == FIRMWARE_0;
    assert CLIENT_1 == FIRMWARE_1;
    assert CLIENT_2 == FIRMWARE_2;
    assert CLIENT_3 == FIRMWARE_3;
    assert CLIENT_4 == FIRMWARE_4;
    assert CLIENT_5 == FIRMWARE_5;
    assert CLIENT_6 == FIRMWARE_6;
    assert CLIENT_7 == FIRMWARE_7;
    assert CLIENT_8 == FIRMWARE_8;
    assert CLIENT_9 == FIRMWARE_9;
    assert CLIENT_A == FIRMWARE_A;
    assert CLIENT_B == FIRMWARE_B;
    assert CLIENT_C == FIRMWARE_C;
    assert CLIENT_D == FIRMWARE_D;
    assert CLIENT_E == FIRMWARE_E;
    assert CLIENT_F == FIRMWARE_F;
  }

  /** Every entry of the table is eight division steps applied to its index. */
  lemma TableIsStepTable(i: byte)
    ensures Square(CLIENT_TABLE) && Entry(CLIENT_TABLE, i) == ByteStep(i)
  {
    ClientRows0();
    ClientRows1();
    ClientRows2();
    ClientRows3();
    ClientHasRows(ByteStep);
    RowsMakeTable(ByteStep, CLIENT_TABLE, i);
  }

  // ---------------------------------------------------------------- the table loops divide

  lemma {:induction false} FoldAppend<R>(feed: (R, bool) -> R, reg: R, a: seq<bool>, b: seq<bool>)
    ensures Fold(feed, reg, a + b) == Fold(feed, Fold(feed, reg, a), b)
    decreases |a|
  {
    if a == [] {
      assert a + b == b;
    } else {
      assert (a + b)[1..] == a[1..] + b;
      FoldAppend(feed, feed(reg, a[0]), a[1..], b);
    }
  }

  /** Feeding the top bit of `y` does what stepping the register mixed with `y` does. */
  ghost predicate Commutes<R(!new)>(feed: (R, bool) -> R, step: R -> R, mix: (R, R) -> R, shl: R -> R, msb: R -> bool) {
    forall r, y :: mix(feed(r, msb(y)), shl(y)) == step(mix(r, y))
  }

  /** `b` is what shifts out of `x`. */
  predicate ShiftsOut<R(==)>(shl: R -> R, msb: R -> bool, zero: R, x: R, b: seq<bool>) {
    if b == [] then x == zero else b[0] == msb(x) && ShiftsOut(shl, msb, zero, shl(x), b[1..])
  }

  function Steps<R>(step: R -> R, n: nat, r: R): R {
    if n == 0 then r else Steps(step, n - 1, step(r))
  }

  lemma {:induction false} FeedingIsStepping<R(!new)>(
    feed: (R, bool) -> R, step: R -> R, mix: (R, R) -> R, shl: R -> R, msb: R -> bool,
    zero: R, reg: R, x: R, b: seq<bool>)
    requires Commutes(feed, step, mix, shl, msb) && forall r :: mix(r, zero) == r
    requires ShiftsOut(shl, msb, zero, x, b)
    ensures Fold(feed, reg, b) == Steps(step, |b|, mix(reg, x))
    decreases |b|
  {
    if b != [] {
      assert mix(feed(reg, msb(x)), shl(x)) == step(mix(reg, x));
      FeedingIsStepping(feed, step, mix, shl, msb, zero, feed(reg, b[0]), shl(x), b[1..]);
    }
  }

  function Mix(a: byte, b: byte): byte { a ^ b }
  function ShiftLeft(a: byte): byte { a << 1 }
  predicate TopBit(a: byte) { a & 0x80 != 0 }

  lemma FeedIsStepBits(reg: byte, x: byte)
    ensures FeedBit(reg, x & 0x80 != 0) ^ (x << 1) == BitStep(reg ^ x)
  {
  }

  lemma FeedIsStep(reg: byte, x: byte)
    ensures Mix(FeedBit(reg, TopBit(x)), ShiftLeft(x)) == BitStep(Mix(reg, x))
  {
    FeedIsStepBits(reg, x);
    assert TopBit(x) == (x & 0x80 != 0);
    assert ShiftLeft(x) == x << 1;
    assert Mix(reg, x) == reg ^ x;
  }

  lemma ShiftTopBit(x: byte, k: nat)
    requires k < 7
    ensures BitAt(x << 1, k) == BitAt(x, k + 1)
  {
  }

  lemma ShiftedBits(x: byte, y: byte, n: nat)
    requires 0 < n <= 8 && y == x << 1
    ensures BitsOf(x)[..n][1..] == BitsOf(y)[..n - 1]
    ensures forall k :: 0 <= k < 7 ==> BitAt(y, k) == BitAt(x, k + 1)
  {
    forall k | 0 <= k < 7
      ensures BitAt(y, k) == BitAt(x, k + 1)
    {
      ShiftTopBit(x, k);
    }
  }

  /** Shifting `x` by one drops the first of its bits and appends a zero bit. */
  lemma {:induction false} ByteShiftsOut(x: byte, n: nat)
    requires n <= 8 && forall k :: n <= k < 8 ==> !BitAt(x, k)
    ensures ShiftsOut(ShiftLeft, TopBit, 0, x, BitsOf(x)[..n])
    decreases n
  {
    if n == 0 {
      assert BitsOf(x)[..0] == [];
      NoBits(x);
    } else {
      var y := x << 1;
      ShiftedBits(x, y, n);
      ShiftedLowBit(x);
      ByteShiftsOut(y, n - 1);
    }
  }

  lemma NoBits(x: byte)
    requires !BitAt(x, 0) && !BitAt(x, 1) && !BitAt(x, 2) && !BitAt(x, 3)
    requires !BitAt(x, 4) && !BitAt(x, 5) && !BitAt(x, 6) && !BitAt(x, 7)
    ensures x == 0
  {
  }

  lemma ShiftedLowBit(x: byte)
    ensures !BitAt(x << 1, 7)
  {
  }

  lemma EightSteps(c: byte)
    ensures Steps(BitStep, 8, c) == ByteStep(c)
  {
    TwoSteps(c, 8);
    var c2 := BitStep(BitStep(c));
    TwoSteps(c2, 6);
    var c4 := BitStep(BitStep(c2));
    TwoSteps(c4, 4);
    TwoSteps(BitStep(BitStep(c4)), 2);
  }

  lemma TwoSteps(c: byte, n: nat)
    requires n >= 2
    ensures Steps(BitStep, n, c) == Steps(BitStep, n - 2, BitStep(BitStep(c)))
  {
    assert Steps(BitStep, n, c) == Steps(BitStep, n - 1, BitStep(c));
  }

  lemma ByteCommutes()
    ensures Commutes(FeedBit, BitStep, Mix, ShiftLeft, TopBit)
    ensures forall r :: Mix(r, 0) == r
  {
    forall r: byte, y: byte
      ensures Mix(FeedBit(r, TopBit(y)), ShiftLeft(y)) == BitStep(Mix(r, y))
    {
      FeedIsStep(r, y);
    }
    forall r: byte
      ensures Mix(r, 0) == r
    {
      XorZero(r);
    }
  }

  /** Dividing by one message byte is one table step. */
  lemma DivideByte(reg: byte, x: byte)
    ensures Divide(reg, BitsOf(x)) == ByteStep(reg ^ x)
  {
    ByteCommutes();
    ByteShiftsOut(x, 8);
    assert BitsOf(x)[..8] == BitsOf(x);
    FeedingIsStepping(FeedBit, BitStep, Mix, ShiftLeft, TopBit, 0, reg, x, BitsOf(x));
    EightSteps(Mix(reg, x));
  }

  lemma XorZero(r: byte)
    ensures r ^ 0 == r && 0 ^ r == r
  {
  }

  lemma {:induction false} BitsAppend(a: seq<byte>, b: seq<byte>)
    ensures Bits(a + b) == Bits(a) + Bits(b)
  {
    if a == [] {
      assert a + b == b;
    } else {
      assert (a + b)[1..] == a[1..] + b;
      BitsAppend(a[1..], b);
    }
  }

  lemma BitsSingle(x: byte)
    ensures Bits([x]) == BitsOf(x)
  {
    assert Bits([x][1..]) == [];
  }

  lemma ChecksumSnoc(msg: seq<byte>, x: byte)
    ensures Divide(0xFF, Bits(msg + [x])) == ByteStep(Checksum(msg) ^ x)
  {
    BitsAppend(msg, [x]);
    BitsSingle(x);
    FoldAppend(FeedBit, 0xFF, Bits(msg), BitsOf(x));
    DivideByte(Checksum(msg), x);
  }

  lemma ClientStep(source: seq<byte>, i: nat)
    requires i < |source|
    ensures Square(CLIENT_TABLE)
    ensures Entry(CLIENT_TABLE, Checksum(source[..i]) ^ source[i]) == Checksum(source[..i + 1])
  {
    TableIsStepTable(Checksum(source[..i]) ^ source[i]);
    ChecksumSnoc(source[..i], source[i]);
    assert source[..i + 1] == source[..i] + [source[i]];
  }

  /** `CRC8` on the client. */
  method Crc8Client(source: seq<byte>) returns (crc: byte)
    ensures crc == Checksum(source)
  {
    crc := 0xFF;
    var i := 0;
    while i < |source|
      invariant i <= |source| && crc == Checksum(source[..i])
    {
      ClientStep(source, i);
      crc := Entry(CLIENT_TABLE, crc ^ source[i]);
      i := i + 1;
    }
    assert source[..i] == source;
  }

  /** `CRC8` on the firmware. */
  method Crc8Firmware(source: seq<byte>) returns (crc: byte)
    ensures crc == Checksum(source)
  {
    crc := 0xFF;
    TablesAgree();
    var i := 0;
    while i < |source|
      invariant i <= |source| && crc == Checksum(source[..i])
    {
      ClientStep(source, i);
      crc := Entry(FIRMWARE_TABLE, crc ^ source[i]);
      i := i + 1;
    }
    assert source[..i] == source;
  }

  // ---------------------------------------------------------------- what the checksum detects

  lemma ByteStepZero(c: byte)
    ensures ByteStep(c) == 0 <==> c == 0
  {
    BitStepZero(c);
    BitStepZero(BitStep(c));
    BitStepZero(BitStep(BitStep(c)));
    BitStepZero(BitStep(BitStep(BitStep(c))));
    BitStepZero(BitStep(BitStep(BitStep(BitStep(c)))));
    BitStepZero(BitStep(BitStep(BitStep(BitStep(BitStep(c))))));
    BitStepZero(BitStep(BitStep(BitStep(BitStep(BitStep(BitStep(c)))))));
    BitStepZero(BitStep(BitStep(BitStep(BitStep(BitStep(BitStep(BitStep(c))))))));
  }

  lemma BitStepZero(c: byte)
    ensures BitStep(c) == 0 <==> c == 0
  {
  }

  /** A block passes exactly when division of the whole block, checksum included, leaves residue zero. */
  lemma PassesIsZeroResidue(block: seq<byte>)
    requires block != []
    ensures Passes(block) <==> Divide(0xFF, Bits(block)) == 0
  {
    var meta, crc := block[..|block| - 1], block[|block| - 1];
    assert block == meta + [crc];
    ChecksumSnoc(meta, crc);
    ByteStepZero(Checksum(meta) ^ crc);
    assert Checksum(meta) ^ crc == 0 <==> Checksum(meta) == crc;
  }

  /** Appending the checksum always yields a block that passes. */
  lemma AppendedChecksumPasses(meta: seq<byte>)
    ensures Passes(meta + [Checksum(meta)]) && Divide(0xFF, Bits(meta + [Checksum(meta)])) == 0
  {
    assert (meta + [Checksum(meta)])[..|meta|] == meta;
    PassesIsZeroResidue(meta + [Checksum(meta)]);
  }

  /** Transmission errors flip bits. */
  function Flip(block: seq<byte>, error: seq<byte>): seq<byte>
    requires |block| == |error|
  {
    seq(|block|, i requires 0 <= i < |block| => block[i] ^ error[i])
  }

  lemma FeedLinearBits(r: byte, s: byte, a: bool, b: bool, x: byte, y: byte, z: byte)
    requires x == ((r ^ s) << 1) ^ (if ((r ^ s) & 0x80 != 0) != (a != b) then 0x31 else 0)
    requires y == (r << 1) ^ (if (r & 0x80 != 0) != a then 0x31 else 0)
    requires z == (s << 1) ^ (if (s & 0x80 != 0) != b then 0x31 else 0)
    ensures x == y ^ z
  {
  }

  lemma FeedLinear(r: byte, s: byte, a: bool, b: bool)
    ensures FeedBit(r ^ s, a != b) == FeedBit(r, a) ^ FeedBit(s, b)
  {
    FeedLinearBits(r, s, a, b, FeedBit(r ^ s, a != b), FeedBit(r, a), FeedBit(s, b));
  }

  lemma {:induction false} FoldLinear<R(!new)>(feed: (R, bool) -> R, mix: (R, R) -> R, r: R, s: R,
                                               a: seq<bool>, b: seq<bool>, c: seq<bool>)
    requires forall x, y, p, q :: feed(mix(x, y), p != q) == mix(feed(x, p), feed(y, q))
    requires |a| == |b| == |c| && forall i :: 0 <= i < |a| ==> c[i] == (a[i] != b[i])
    ensures Fold(feed, mix(r, s), c) == mix(Fold(feed, r, a), Fold(feed, s, b))
    decreases |a|
  {
    if a != [] {
      assert feed(mix(r, s), a[0] != b[0]) == mix(feed(r, a[0]), feed(s, b[0]));
      FoldLinear(feed, mix, feed(r, a[0]), feed(s, b[0]), a[1..], b[1..], c[1..]);
    }
  }

  /** Division is linear over GF(2). */
  lemma DivideLinear(r: byte, s: byte, a: seq<bool>, b: seq<bool>, c: seq<bool>)
    requires |a| == |b| == |c| && forall i :: 0 <= i < |a| ==> c[i] == (a[i] != b[i])
    ensures Divide(r ^ s, c) == Divide(r, a) ^ Divide(s, b)
  {
    forall x: byte, y: byte, p: bool, q: bool
      ensures FeedBit(Mix(x, y), p != q) == Mix(FeedBit(x, p), FeedBit(y, q))
    {
      FeedLinear(x, y, p, q);
    }
    FoldLinear(FeedBit, Mix, r, s, a, b, c);
  }

  lemma {:induction false} BitsAt(msg: seq<byte>, i: nat, k: nat)
    requires i < |msg| && k < 8
    ensures |Bits(msg)| == 8 * |msg| && Bits(msg)[8 * i + k] == BitsOf(msg[i])[k]
  {
    if i > 0 {
      BitsAt(msg[1..], i - 1, k);
    } else if |msg| > 1 {
      BitsAt(msg[1..], 0, k);
    } else {
      assert Bits(msg[1..]) == [];
    }
  }

  lemma MaskXor(x: byte, y: byte)
    ensures ((x ^ y) & 0x80 != 0) == ((x & 0x80 != 0) != (y & 0x80 != 0))
    ensures ((x ^ y) & 0x40 != 0) == ((x & 0x40 != 0) != (y & 0x40 != 0))
    ensures ((x ^ y) & 0x20 != 0) == ((x & 0x20 != 0) != (y & 0x20 != 0))
    ensures ((x ^ y) & 0x10 != 0) == ((x & 0x10 != 0) != (y & 0x10 != 0))
    ensures ((x ^ y) & 0x08 != 0) == ((x & 0x08 != 0) != (y & 0x08 != 0))
    ensures ((x ^ y) & 0x04 != 0) == ((x & 0x04 != 0) != (y & 0x04 != 0))
    ensures ((x ^ y) & 0x02 != 0) == ((x & 0x02 != 0) != (y & 0x02 != 0))
    ensures ((x ^ y) & 0x01 != 0) == ((x & 0x01 != 0) != (y & 0x01 != 0))
  {
  }

  lemma BitAtXor(x: byte, y: byte, k: nat)
    requires k < 8
    ensures BitAt(x ^ y, k) == (BitAt(x, k) != BitAt(y, k))
  {
    MaskXor(x, y);
    if k == 0 {} else if k == 1 {} else if k == 2 {} else if k == 3 {}
    else if k == 4 {} else if k == 5 {} else if k == 6 {} else {}
  }

  lemma BitsFlip(block: seq<byte>, error: seq<byte>, n: nat)
    requires |error| == |block| && n < 8 * |block|
    ensures |Bits(block)| == |Bits(error)| == |Bits(Flip(block, error))| == 8 * |block|
    ensures Bits(Flip(block, error))[n] == (Bits(block)[n] != Bits(error)[n])
  {
    var i, k := n / 8, n % 8;
    BitsAt(block, i, k);
    BitsAt(error, i, k);
    BitsAt(Flip(block, error), i, k);
    BitAtXor(block[i], error[i], k);
  }

  /** Whether an error goes unnoticed depends on the error alone: it must leave residue zero from a zero register. */
  lemma UndetectedIffZeroResidue(block: seq<byte>, error: seq<byte>)
    requires block != [] && |error| == |block| && Passes(block)
    ensures Passes(Flip(block, error)) <==> Divide(0, Bits(error)) == 0
  {
    var hit := Flip(block, error);
    BitsFlip(block, error, 0);
    forall n | 0 <= n < 8 * |block|
      ensures Bits(hit)[n] == (Bits(block)[n] != Bits(error)[n])
    {
      BitsFlip(block, error, n);
    }
    DivideLinear(0xFF, 0, Bits(block), Bits(error), Bits(hit));
    PassesIsZeroResidue(block);
    PassesIsZeroResidue(hit);
    XorZero(0xFF);
    XorZero(Divide(0, Bits(error)));
  }

  /** Parity of the set bits of the register, and of a bit string. */
  function Parity(b: byte): bool {
    (b ^ (b >> 1) ^ (b >> 2) ^ (b >> 3) ^ (b >> 4) ^ (b >> 5) ^ (b >> 6) ^ (b >> 7)) & 1 != 0
  }

  function Odd(bits: seq<bool>): bool {
    if bits == [] then false else bits[0] != Odd(bits[1..])
  }

  lemma FeedParity(reg: byte, bit: bool)
    ensures Parity(FeedBit(reg, bit)) == (Parity(reg) != bit)
  {
  }

  lemma {:induction false} FoldParity<R(!new)>(feed: (R, bool) -> R, parity: R -> bool, reg: R, bits: seq<bool>)
    requires forall r, b :: parity(feed(r, b)) == (parity(r) != b)
    ensures parity(Fold(feed, reg, bits)) == (parity(reg) != Odd(bits))
    decreases |bits|
  {
    if bits != [] {
      assert parity(feed(reg, bits[0])) == (parity(reg) != bits[0]);
      FoldParity(feed, parity, feed(reg, bits[0]), bits[1..]);
    }
  }

  lemma DivideParity(reg: byte, bits: seq<bool>)
    ensures Parity(Divide(reg, bits)) == (Parity(reg) != Odd(bits))
  {
    forall r: byte, b: bool
      ensures Parity(FeedBit(r, b)) == (Parity(r) != b)
    {
      FeedParity(r, b);
    }
    FoldParity(FeedBit, Parity, reg, bits);
  }

  /** The checksum has the parity of the message. */
  lemma ChecksumParity(msg: seq<byte>)
    ensures Parity(Checksum(msg)) == Odd(Bits(msg))
  {
    DivideParity(0xFF, Bits(msg));
  }

  /** Any odd number of flipped bits, anywhere in metadata and checksum byte, is caught. */
  lemma OddErrorsDetected(block: seq<byte>, error: seq<byte>)
    requires block != [] && |error| == |block| && Passes(block) && Odd(Bits(error))
    ensures !Passes(Flip(block, error))
  {
    UndetectedIffZeroResidue(block, error);
    DivideParity(0, Bits(error));
  }

  lemma FeedFalseZero(reg: byte)
    ensures FeedBit(reg, false) == 0 <==> reg == 0
  {
  }

  lemma {:induction false} FoldZeros<R(!new)>(feed: (R, bool) -> R, zero: R, reg: R, bits: seq<bool>)
    requires forall r :: feed(r, false) == zero <==> r == zero
    requires forall i :: 0 <= i < |bits| ==> !bits[i]
    ensures Fold(feed, reg, bits) == zero <==> reg == zero
    decreases |bits|
  {
    if bits != [] {
      FoldZeros(feed, zero, feed(reg, false), bits[1..]);
    }
  }

  function Pack(w: seq<bool>): byte
    requires |w| == 8
  {
    (if w[0] then 0x80 else 0) | (if w[1] then 0x40 else 0) | (if w[2] then 0x20 else 0) | (if w[3] then 0x10 else 0)
    | (if w[4] then 0x08 else 0) | (if w[5] then 0x04 else 0) | (if w[6] then 0x02 else 0) | (if w[7] then 0x01 else 0)
  }

  lemma PackBits(w: seq<bool>, k: nat)
    requires |w| == 8 && k < 8
    ensures BitAt(Pack(w), k) == w[k]
  {
  }

  lemma BitsZero()
    ensures forall i :: 0 <= i < 8 ==> !BitsOf(0)[i]
  {
  }

  lemma WindowNonzero(w: seq<bool>, i: nat)
    requires |w| == 8 && i < 8 && w[i]
    ensures Divide(0, w) != 0
  {
    forall k | 0 <= k < 8
      ensures BitsOf(Pack(w))[k] == w[k]
    {
      PackBits(w, k);
    }
    assert BitsOf(Pack(w)) == w;
    BitsZero();
    DivideByte(0, Pack(w));
    XorZero(Pack(w));
    ByteStepZero(Pack(w));
  }

  /** Every set bit of a non-empty error lies within eight consecutive bit positions from `start`. */
  ghost predicate Burst(bits: seq<bool>, start: nat) {
    && (exists n :: 0 <= n < |bits| && bits[n])
    && (forall n :: 0 <= n < |bits| && bits[n] ==> start <= n < start + 8)
  }

  /** Zero bits around a window do not matter. */
  lemma FoldWindow<R(!new)>(feed: (R, bool) -> R, zero: R, before: seq<bool>, w: seq<bool>, after: seq<bool>)
    requires forall r :: feed(r, false) == zero <==> r == zero
    requires (forall i :: 0 <= i < |before| ==> !before[i]) && (forall i :: 0 <= i < |after| ==> !after[i])
    ensures Fold(feed, zero, before + w + after) == zero <==> Fold(feed, zero, w) == zero
  {
    FoldAppend(feed, zero, before + w, after);
    FoldAppend(feed, zero, before, w);
    FoldZeros(feed, zero, zero, before);
    FoldZeros(feed, zero, Fold(feed, zero, w), after);
  }

  /** A window of eight bits that holds the whole burst. */
  lemma BurstWindow(bits: seq<bool>, start: nat) returns (before: seq<bool>, w: seq<bool>, after: seq<bool>, i: nat)
    requires |bits| >= 8 && Burst(bits, start)
    ensures bits == before + w + after && |w| == 8 && i < 8 && w[i]
    ensures (forall k :: 0 <= k < |before| ==> !before[k]) && (forall k :: 0 <= k < |after| ==> !after[k])
  {
    var from := if start + 8 <= |bits| then start else |bits| - 8;
    before, w, after := bits[..from], bits[from..from + 8], bits[from + 8..];
    var n :| 0 <= n < |bits| && bits[n];
    i := n - from;
    assert w[i] == bits[n];
    assert forall k :: 0 <= k < |after| ==> after[k] == bits[from + 8 + k];
  }

  lemma FoldBurst<R(!new)>(feed: (R, bool) -> R, zero: R, bits: seq<bool>, start: nat)
    requires forall r :: feed(r, false) == zero <==> r == zero
    requires forall w, i :: |w| == 8 && 0 <= i < 8 && w[i] ==> Fold(feed, zero, w) != zero
    requires |bits| >= 8 && Burst(bits, start)
    ensures Fold(feed, zero, bits) != zero
  {
    var before, w, after, i := BurstWindow(bits, start);
    FoldWindow(feed, zero, before, w, after);
    assert w[i];
  }

  /** Any burst of at most eight bits is caught, wherever it starts and whether or not it crosses bytes. */
  lemma BurstsDetected(block: seq<byte>, error: seq<byte>, start: nat)
    requires block != [] && |error| == |block| && Passes(block) && Burst(Bits(error), start)
    ensures !Passes(Flip(block, error))
  {
    var bits := Bits(error);
    BitsAt(error, 0, 0);
    forall r: byte
      ensures FeedBit(r, false) == 0 <==> r == 0
    {
      FeedFalseZero(r);
    }
    forall w: seq<bool>, i | |w| == 8 && 0 <= i < 8 && w[i]
      ensures Fold(FeedBit, 0, w) != 0
    {
      WindowNonzero(w, i);
    }
    FoldBurst(FeedBit, 0, Bits(error), start);
    UndetectedIffZeroResidue(block, error);
  }
}
