/** The CRC-16 of the streaming download protocol: `crc_16_l_calc` and its table.

    The reference is the bit-serial shift register of RFC 1662 (section C.2: generator
    x^16 + x^12 + x^5 + 1, least significant bit first, all-ones preset, complemented
    result). The table-driven loop is proved to compute it, and the register is proved to
    have the two properties the check sequence is there for: a message followed by its own
    check bytes drives it to a constant, and no burst of up to sixteen damaged bits in a
    message of any length leaves the check sequence unchanged.

    Bit-vector facts with several operators are proved one at a time and combined over an
    abstract type, where the solver has no bits to reason about. */
module Crc16 {

  const SEED: bv16 := 0xFFFF
  const POLYNOMIAL: bv16 := 0x8408

  /** `crc_16_l_table`, sixteen entries to a row. */
  const ROW0: seq<bv16> := [
    0x0000, 0x1189, 0x2312, 0x329b, 0x4624, 0x57ad, 0x6536, 0x74bf,
    0x8c48, 0x9dc1, 0xaf5a, 0xbed3, 0xca6c, 0xdbe5, 0xe97e, 0xf8f7]
  const ROW1: seq<bv16> := [
    0x1081, 0x0108, 0x3393, 0x221a, 0x56a5, 0x472c, 0x75b7, 0x643e,
    0x9cc9, 0x8d40, 0xbfdb, 0xae52, 0xdaed, 0xcb64, 0xf9ff, 0xe876]
  const ROW2: seq<bv16> := [
    0x2102, 0x308b, 0x0210, 0x1399, 0x6726, 0x76af, 0x4434, 0x55bd,
    0xad4a, 0xbcc3, 0x8e58, 0x9fd1, 0xeb6e, 0xfae7, 0xc87c, 0xd9f5]
  const ROW3: seq<bv16> := [
    0x3183, 0x200a, 0x1291, 0x0318, 0x77a7, 0x662e, 0x54b5, 0x453c,
    0xbdcb, 0xac42, 0x9ed9, 0x8f50, 0xfbef, 0xea66, 0xd8fd, 0xc974]
  const ROW4: seq<bv16> := [
    0x4204, 0x538d, 0x6116, 0x709f, 0x0420, 0x15a9, 0x2732, 0x36bb,
    0xce4c, 0xdfc5, 0xed5e, 0xfcd7, 0x8868, 0x99e1, 0xab7a, 0xbaf3]
  const ROW5: seq<bv16> := [
    0x5285, 0x430c, 0x7197, 0x601e, 0x14a1, 0x0528, 0x37b3, 0x263a,
    0xdecd, 0xcf44, 0xfddf, 0xec56, 0x98e9, 0x8960, 0xbbfb, 0xaa72]
  const ROW6: seq<bv16> := [
    0x6306, 0x728f, 0x4014, 0x519d, 0x2522, 0x34ab, 0x0630, 0x17b9,
    0xef4e, 0xfec7, 0xcc5c, 0xddd5, 0xa96a, 0xb8e3, 0x8a78, 0x9bf1]
  const ROW7: seq<bv16> := [
    0x7387, 0x620e, 0x5095, 0x411c, 0x35a3, 0x242a, 0x16b1, 0x0738,
    0xffcf, 0xee46, 0xdcdd, 0xcd54, 0xb9eb, 0xa862, 0x9af9, 0x8b70]
  const ROW8: seq<bv16> := [
    0x8408, 0x9581, 0xa71a, 0xb693, 0xc22c, 0xd3a5, 0xe13e, 0xf0b7,
    0x0840, 0x19c9, 0x2b52, 0x3adb, 0x4e64, 0x5fed, 0x6d76, 0x7cff]
  const ROW9: seq<bv16> := [
    0x9489, 0x8500, 0xb79b, 0xa612, 0xd2ad, 0xc324, 0xf1bf, 0xe036,
    0x18c1, 0x0948, 0x3bd3, 0x2a5a, 0x5ee5, 0x4f6c, 0x7df7, 0x6c7e]
  const ROWA: seq<bv16> := [
    0xa50a, 0xb483, 0x8618, 0x9791, 0xe32e, 0xf2a7, 0xc03c, 0xd1b5,
    0x2942, 0x38cb, 0x0a50, 0x1bd9, 0x6f66, 0x7eef, 0x4c74, 0x5dfd]
  const ROWB: seq<bv16> := [
    0xb58b, 0xa402, 0x9699, 0x8710, 0xf3af, 0xe226, 0xd0bd, 0xc134,
    0x39c3, 0x284a, 0x1ad1, 0x0b58, 0x7fe7, 0x6e6e, 0x5cf5, 0x4d7c]
  const ROWC: seq<bv16> := [
    0xc60c, 0xd785, 0xe51e, 0xf497, 0x8028, 0x91a1, 0xa33a, 0xb2b3,
    0x4a44, 0x5bcd, 0x6956, 0x78df, 0x0c60, 0x1de9, 0x2f72, 0x3efb]
  const ROWD: seq<bv16> := [
    0xd68d, 0xc704, 0xf59f, 0xe416, 0x90a9, 0x8120, 0xb3bb, 0xa232,
    0x5ac5, 0x4b4c, 0x79d7, 0x685e, 0x1ce1, 0x0d68, 0x3ff3, 0x2e7a]
  const ROWE: seq<bv16> := [
    0xe70e, 0xf687, 0xc41c, 0xd595, 0xa12a, 0xb0a3, 0x8238, 0x93b1,
    0x6b46, 0x7acf, 0x4854, 0x59dd, 0x2d62, 0x3ceb, 0x0e70, 0x1ff9]
  const ROWF: seq<bv16> := [
    0xf78f, 0xe606, 0xd49d, 0xc514, 0xb1ab, 0xa022, 0x92b9, 0x8330,
    0x7bc7, 0x6a4e, 0x58d5, 0x495c, 0x3de3, 0x2c6a, 0x1ef1, 0x0f78]

  const ROWS: seq<seq<bv16>> :=
    [ROW0, ROW1, ROW2, ROW3, ROW4, ROW5, ROW6, ROW7, ROW8, ROW9, ROWA, ROWB, ROWC, ROWD, ROWE, ROWF]

  function TableEntry(x: bv8): bv16 {
    ROWS[(x >> 4) as int][(x & 0x0f) as int]
  }

  // ---------------------------------------------------------------------------
  // Reference: the bit-serial register
  // ---------------------------------------------------------------------------

  /** The register loses its low bit; a one-bit lost feeds the polynomial back. */
  function ShiftOut(r: bv16): bv16 {
    (r >> 1) ^ (POLYNOMIAL & (0 - (r & 1)))
  }

  function FeedBit(r: bv16, bit: bool): bv16 {
    ShiftOut(r ^ (if bit then 1 else 0))
  }

  function Register(r: bv16, bits: seq<bool>): bv16
    decreases bits
  {
    if bits == [] then r else Register(FeedBit(r, bits[0]), bits[1..])
  }

  /** The lowest `n` bits of `y`, least significant first. */
  function LowBits(y: bv16, n: nat): (bits: seq<bool>)
    ensures |bits| == n
    decreases n
  {
    if n == 0 then [] else [y & 1 != 0] + LowBits(y >> 1, n - 1)
  }

  function ByteBits(x: bv8): seq<bool> {
    LowBits(x as bv16, 8)
  }

  function FlatMap<A, B>(f: A -> seq<B>, s: seq<A>): seq<B> {
    if s == [] then [] else f(s[0]) + FlatMap(f, s[1..])
  }

  function Bits(message: seq<bv8>): seq<bool> {
    FlatMap(ByteBits, message)
  }

  function Complement(r: bv16): bv16 { !r }

  /** The frame check sequence of a message. */
  function Crc(message: seq<bv8>): bv16 {
    Complement(Register(SEED, Bits(message)))
  }

  /** The two check bytes in transmission order, low byte first. */
  function CrcBytes(crc: bv16): seq<bv8> {
    [(crc & 0xFF) as bv8, (crc >> 8) as bv8]
  }

  lemma {:induction false} RegisterConcat(r: bv16, a: seq<bool>, b: seq<bool>)
    ensures Register(r, a + b) == Register(Register(r, a), b)
    decreases a
  {
    if a == [] {
      assert a + b == b;
    } else {
      assert (a + b)[1..] == a[1..] + b;
      RegisterConcat(FeedBit(r, a[0]), a[1..], b);
    }
  }

  lemma {:induction false} FlatMapConcat<A, B>(f: A -> seq<B>, a: seq<A>, b: seq<A>)
    ensures FlatMap(f, a + b) == FlatMap(f, a) + FlatMap(f, b)
  {
    if a == [] {
      assert a + b == b;
    } else {
      assert (a + b)[1..] == a[1..] + b;
      FlatMapConcat(f, a[1..], b);
    }
  }

  // ---------------------------------------------------------------------------
  // A whole byte may be mixed into the low end before it is shifted through
  // ---------------------------------------------------------------------------

  function ShiftOut8(r: bv16): bv16 {
    ShiftOut(ShiftOut(ShiftOut(ShiftOut(ShiftOut(ShiftOut(ShiftOut(ShiftOut(r))))))))
  }

  function Xor(x: bv16, y: bv16): bv16 { x ^ y }

  function Down(x: bv16): bv16 { x >> 1 }

  function FeedLowest(r: bv16, y: bv16): bv16 { ShiftOut(r ^ (y & 1)) }

  function Iterate<T>(f: T -> T, x: T, n: nat): T
    decreases n
  {
    if n == 0 then x else Iterate(f, f(x), n - 1)
  }

  function FeedEach<T>(feed: (T, T) -> T, down: T -> T, r: T, y: T, n: nat): T
    decreases n
  {
    if n == 0 then r else FeedEach(feed, down, feed(r, y), down(y), n - 1)
  }

  lemma {:induction false} FeedingIsMixing<T(!new)>(xor: (T, T) -> T, down: T -> T, feed: (T, T) -> T, shift: T -> T,
                                                    r: T, y: T, n: nat)
    requires forall s, z :: xor(feed(s, z), down(z)) == shift(xor(s, z))
    ensures xor(FeedEach(feed, down, r, y, n), Iterate(down, y, n)) == Iterate(shift, xor(r, y), n)
    decreases n
  {
    if n > 0 {
      FeedingIsMixing(xor, down, feed, shift, feed(r, y), down(y), n - 1);
    }
  }

  lemma FeedLowestMixes(r: bv16, y: bv16)
    ensures FeedLowest(r, y) ^ (y >> 1) == ShiftOut(r ^ y)
  {
  }

  lemma FeedLowestIsFeedBit(r: bv16, y: bv16)
    ensures FeedLowest(r, y) == FeedBit(r, y & 1 != 0)
  {
    assert y & 1 == 0 || y & 1 == 1;
  }

  lemma {:induction false} RegisterFeedsEach(r: bv16, y: bv16, n: nat)
    ensures Register(r, LowBits(y, n)) == FeedEach(FeedLowest, Down, r, y, n)
    decreases n
  {
    if n > 0 {
      FeedLowestIsFeedBit(r, y);
      assert LowBits(y, n)[1..] == LowBits(y >> 1, n - 1);
      RegisterFeedsEach(FeedLowest(r, y), Down(y), n - 1);
    }
  }

  lemma DownShiftsAway(y: bv16)
    requires y < 256
    ensures Iterate(Down, y, 8) == 0
  {
  }

  lemma ShiftOutIterated(r: bv16)
    ensures Iterate(ShiftOut, r, 8) == ShiftOut8(r)
  {
  }

  lemma XorZero(x: bv16)
    ensures Xor(x, 0) == x
  {
  }

  /** Eight bits fed one by one equal one exclusive-or and eight plain shifts. */
  lemma ByteThroughRegister(r: bv16, x: bv8)
    ensures Register(r, ByteBits(x)) == ShiftOut8(Xor(r, x as bv16))
  {
    var y := x as bv16;
    forall s, z
      ensures Xor(FeedLowest(s, z), Down(z)) == ShiftOut(Xor(s, z))
    {
      FeedLowestMixes(s, z);
    }
    FeedingIsMixing(Xor, Down, FeedLowest, ShiftOut, r, y, 8);
    RegisterFeedsEach(r, y, 8);
    DownShiftsAway(y);
    XorZero(FeedEach(FeedLowest, Down, r, y, 8));
    ShiftOutIterated(Xor(r, y));
  }

  // ---------------------------------------------------------------------------
  // The table
  // ---------------------------------------------------------------------------

  lemma FirstRow(x: bv16)
    requires x < 16
    ensures ROW0[x as int] == ShiftOut8(x)
  {
    if x == 0 {
    } else if x == 1 {
    } else if x == 2 {
    } else if x == 3 {
    } else if x == 4 {
    } else if x == 5 {
    } else if x == 6 {
    } else if x == 7 {
    } else if x == 8 {
    } else if x == 9 {
    } else if x == 10 {
    } else if x == 11 {
    } else if x == 12 {
    } else if x == 13 {
    } else if x == 14 {
    } else if x == 15 {
    }
  }

  lemma FirstColumn(x: bv16)
    requires x < 16
    ensures |ROWS[x as int]| == 16 && ROWS[x as int][0] == ShiftOut8(x << 4)
  {
    if x == 0 {
    } else if x == 1 {
    } else if x == 2 {
    } else if x == 3 {
    } else if x == 4 {
    } else if x == 5 {
    } else if x == 6 {
    } else if x == 7 {
    } else if x == 8 {
    } else if x == 9 {
    } else if x == 10 {
    } else if x == 11 {
    } else if x == 12 {
    } else if x == 13 {
    } else if x == 14 {
    } else if x == 15 {
    }
  }

  /** A row is the first row with its own first entry mixed in. */
  predicate Linear(row: seq<bv16>, j: nat) { j < |row| == 16 && row[j] == Xor(row[0], ROW0[j]) }

  lemma Row0(j: nat)
    requires j < 16
    ensures Linear(ROW0, j)
  {
  }

  lemma Row1(j: nat)
    requires j < 16
    ensures Linear(ROW1, j)
  {
  }

  lemma Row2(j: nat)
    requires j < 16
    ensures Linear(ROW2, j)
  {
  }

  lemma Row3(j: nat)
    requires j < 16
    ensures Linear(ROW3, j)
  {
  }

  lemma Row4(j: nat)
    requires j < 16
    ensures Linear(ROW4, j)
  {
  }

  lemma Row5(j: nat)
    requires j < 16
    ensures Linear(ROW5, j)
  {
  }

  lemma Row6(j: nat)
    requires j < 16
    ensures Linear(ROW6, j)
  {
  }

  lemma Row7(j: nat)
    requires j < 16
    ensures Linear(ROW7, j)
  {
  }

  lemma Row8(j: nat)
    requires j < 16
    ensures Linear(ROW8, j)
  {
  }

  lemma Row9(j: nat)
    requires j < 16
    ensures Linear(ROW9, j)
  {
  }

  lemma RowA(j: nat)
    requires j < 16
    ensures Linear(ROWA, j)
  {
  }

  lemma RowB(j: nat)
    requires j < 16
    ensures Linear(ROWB, j)
  {
  }

  lemma RowC(j: nat)
    requires j < 16
    ensures Linear(ROWC, j)
  {
  }

  lemma RowD(j: nat)
    requires j < 16
    ensures Linear(ROWD, j)
  {
  }

  lemma RowE(j: nat)
    requires j < 16
    ensures Linear(ROWE, j)
  {
  }

  lemma RowF(j: nat)
    requires j < 16
    ensures Linear(ROWF, j)
  {
  }

  lemma RowsAreLinear(k: nat, j: nat)
    requires k < 16 && j < 16
    ensures Linear(ROWS[k], j)
  {
    hide Linear, ROW0, ROW1, ROW2, ROW3, ROW4, ROW5, ROW6, ROW7, ROW8, ROW9, ROWA, ROWB, ROWC, ROWD, ROWE, ROWF;
    match k
    case 0 => Row0(j);
    case 1 => Row1(j);
    case 2 => Row2(j);
    case 3 => Row3(j);
    case 4 => Row4(j);
    case 5 => Row5(j);
    case 6 => Row6(j);
    case 7 => Row7(j);
    case 8 => Row8(j);
    case 9 => Row9(j);
    case 10 => RowA(j);
    case 11 => RowB(j);
    case 12 => RowC(j);
    case 13 => RowD(j);
    case 14 => RowE(j);
    case 15 => RowF(j);
  }

  lemma NibblesSeparate(x: bv16)
    requires x < 256
    ensures ShiftOut8(x) == Xor(ShiftOut8(x & 0xf0), ShiftOut8(x & 0x0f))
  {
  }

  lemma TableCell(h: bv16, l: bv16)
    requires h < 16 && l < 16
    ensures |ROWS[h as int]| == 16 && ROWS[h as int][l as int] == Xor(ShiftOut8(h << 4), ShiftOut8(l))
  {
    hide ShiftOut8, ROWS, ROW0, Xor;
    FirstRow(l);
    FirstColumn(h);
    RowsAreLinear(h as int, l as int);
  }

  lemma Nibbles(x: bv8, y: bv16, h: bv16, l: bv16)
    requires y == x as bv16 && h == y >> 4 && l == y & 0x0f
    ensures h < 16 && h << 4 == y & 0xf0
    ensures h as int == (x >> 4) as int && l as int == (x & 0x0f) as int
  {
  }

  lemma EntryOfNibbles(x: bv8, y: bv16, h: bv16, l: bv16)
    requires y == x as bv16 && h == y >> 4 && l == y & 0x0f
    ensures TableEntry(x) == Xor(ShiftOut8(h << 4), ShiftOut8(l))
  {
    hide ShiftOut8, ROWS, Xor;
    Nibbles(x, y, h, l);
    TableCell(h, l);
  }

  /** Every entry is what eight shifts of the register make of its index. */
  lemma TableIsShift(x: bv8)
    ensures TableEntry(x) == ShiftOut8(x as bv16)
  {
    hide ShiftOut8, TableEntry, Xor;
    var y := x as bv16;
    Nibbles(x, y, y >> 4, y & 0x0f);
    EntryOfNibbles(x, y, y >> 4, y & 0x0f);
    NibblesSeparate(y);
  }

  // ---------------------------------------------------------------------------
  // crc_16_l_calc
  // ---------------------------------------------------------------------------

  predicate Even(z: bv16) { z & 1 == 0 }

  predicate AllEven<T>(even: T -> bool, down: T -> T, z: T, n: nat)
    decreases n
  {
    n == 0 || (even(z) && AllEven(even, down, down(z), n - 1))
  }

  lemma {:induction false} PassingThrough<T(!new)>(xor: (T, T) -> T, down: T -> T, shift: T -> T, even: T -> bool,
                                                   r: T, z: T, n: nat)
    requires forall s, y :: even(y) ==> shift(xor(s, y)) == xor(shift(s), down(y))
    requires AllEven(even, down, z, n)
    ensures Iterate(shift, xor(r, z), n) == xor(Iterate(shift, r, n), Iterate(down, z, n))
    decreases n
  {
    if n > 0 {
      PassingThrough(xor, down, shift, even, shift(r), down(z), n - 1);
    }
  }

  lemma EvenPasses(s: bv16, z: bv16)
    requires Even(z)
    ensures ShiftOut(s ^ z) == ShiftOut(s) ^ (z >> 1)
  {
  }

  lemma UpperByteMovesDown(z: bv16)
    requires z & 0x00FF == 0
    ensures AllEven(Even, Down, z, 8) && Iterate(Down, z, 8) == z >> 8
  {
  }

  lemma UpperAndLower(r: bv16)
    ensures r == Xor(r & 0x00FF, r & 0xFF00) && r & 0xFF00 & 0x00FF == 0 && (r & 0xFF00) >> 8 == r >> 8
  {
  }

  /** In eight shifts the upper byte only moves down. */
  lemma LowByteSeparates(r: bv16)
    ensures ShiftOut8(r) == Xor(ShiftOut8(r & 0x00FF), r >> 8)
  {
    forall s, y | Even(y)
      ensures ShiftOut(Xor(s, y)) == Xor(ShiftOut(s), Down(y))
    {
      EvenPasses(s, y);
    }
    hide ShiftOut, ShiftOut8, Xor, Down, Even, Iterate, AllEven;
    var x, z := r & 0x00FF, r & 0xFF00;
    UpperAndLower(r);
    UpperByteMovesDown(z);
    PassingThrough(Xor, Down, ShiftOut, Even, x, z, 8);
    ShiftOutIterated(r);
    ShiftOutIterated(x);
  }

  lemma HighByteUntouched(crc: bv16, x: bv8)
    ensures (crc ^ x as bv16) >> 8 == crc >> 8
    ensures ((crc ^ x as bv16) & 0xFF) as bv8 as bv16 == (crc ^ x as bv16) & 0x00FF
  {
  }

  lemma TableStep(crc: bv16, x: bv8)
    ensures TableEntry(((crc ^ x as bv16) & 0xFF) as bv8) ^ (crc >> 8) == ShiftOut8(Xor(crc, x as bv16))
  {
    var r := crc ^ x as bv16;
    TableIsShift((r & 0xFF) as bv8);
    LowByteSeparates(r);
    HighByteUntouched(crc, x);
  }

  /** One table look-up advances the register by the eight bits of a byte. */
  lemma TableStepIsByte(crc: bv16, x: bv8)
    ensures TableEntry(((crc ^ x as bv16) & 0xFF) as bv8) ^ (crc >> 8) == Register(crc, ByteBits(x))
  {
    TableStep(crc, x);
    ByteThroughRegister(crc, x);
  }

  lemma RegisterSnoc(r: bv16, message: seq<bv8>, x: bv8)
    ensures Register(r, Bits(message + [x])) == Register(Register(r, Bits(message)), ByteBits(x))
  {
    FlatMapConcat(ByteBits, message, [x]);
    assert FlatMap(ByteBits, [x]) == ByteBits(x) + FlatMap(ByteBits, []) == ByteBits(x);
    RegisterConcat(r, Bits(message), ByteBits(x));
  }

  /** One round of the main loop: a table look-up advances the register by a byte. */
  method LookUpByte(crc: bv16, x: bv8) returns (register: bv16)
    ensures register == Register(crc, ByteBits(x))
  {
    TableStepIsByte(crc, x);
    register := TableEntry(((crc ^ x as bv16) & 0xFF) as bv8) ^ (crc >> 8);
  }

  lemma NothingRead(buf: seq<bv8>)
    ensures Register(SEED, Bits(buf[..0])) == SEED
  {
  }

  function Widen(m: bv16): bv16 { (m << 1) | 1 }

  function Mask(n: nat): bv16
    requires n <= 16
  {
    if n == 0 then 0 else Widen(Mask(n - 1))
  }

  function ZeroBits(n: nat): seq<bool> { seq(n, _ => false) }

  /** No bit of `m` is set in `data`. */
  predicate Clear(data: bv16, m: bv16) { data & m == 0 }

  lemma MaskOfByte(x: bv8)
    ensures Clear(x as bv16 << 8, Mask(8))
  {
    assert Mask(2) == 0x03 && Mask(4) == 0x0F && Mask(6) == 0x3F && Mask(8) == 0xFF;
    UpperByte(x as bv16);
  }

  lemma UpperByte(y: bv16)
    ensures (y << 8) & 0xFF == 0
  {
  }

  /** One round of the tail: data whose low bit is clear does not influence the step. */
  method TailStep(crc: bv16, data: bv16, ghost m: bv16) returns (register: bv16, shifted: bv16)
    requires Clear(data, Widen(m))
    ensures register == ShiftOut(crc) && Clear(shifted, m)
  {
    ShiftedClear(data, m);
    LowBitAlone(crc, data);
    hide ShiftOut;
    ShiftOutAsBranches(crc);
    if (crc ^ data) & 1 != 0 {
      register := crc >> 1;
      register := register ^ POLYNOMIAL;
    } else {
      register := crc >> 1;
    }
    shifted := data >> 1;
  }

  lemma LowBitAlone(crc: bv16, data: bv16)
    requires data & 1 == 0
    ensures (crc ^ data) & 1 == crc & 1
  {
  }

  lemma ShiftedClear(data: bv16, m: bv16)
    requires data & ((m << 1) | 1) == 0
    ensures (data >> 1) & m == 0 && data & 1 == 0
  {
  }

  lemma LowBitIsOne(r: bv16)
    requires r & 1 != 0
    ensures r & 1 == 1
  {
  }

  lemma FeedbackAll(x: bv16)
    ensures x & (0 - 1) == x && x & (0 - 0) == 0
  {
  }

  lemma ShiftOutAsBranches(r: bv16)
    ensures ShiftOut(r) == if r & 1 != 0 then (r >> 1) ^ POLYNOMIAL else r >> 1
  {
    FeedbackAll(POLYNOMIAL);
    XorZero(r >> 1);
    if r & 1 != 0 {
      LowBitIsOne(r);
    }
  }

  lemma FeedZero(r: bv16)
    ensures FeedBit(r, false) == ShiftOut(r)
  {
    hide ShiftOut;
    XorZero(r);
  }

  lemma OneMoreZero(r: bv16, n: nat)
    ensures Register(r, ZeroBits(n + 1)) == ShiftOut(Register(r, ZeroBits(n)))
  {
    FeedZero(Register(r, ZeroBits(n)));
    hide FeedBit, ShiftOut;
    RegisterConcat(r, ZeroBits(n), [false]);
    assert ZeroBits(n + 1) == ZeroBits(n) + [false];
    assert [false][1..] == [];
  }

  /** The bits after the last whole byte: the byte stands in the upper half of `data`, so
      the loop tests eight zeros before it would come to the first bit of the byte. */
  method TailBits(crc: bv16, x: bv8, n: nat) returns (register: bv16)
    requires n < 8
    ensures register == Register(crc, ZeroBits(n))
  {
    hide *;
    NoBits(crc);
    MaskOfByte(x);
    register := crc;
    var data, left := x as bv16 << 8, n;
    while left != 0
      invariant 0 <= left <= n && register == Register(crc, ZeroBits(n - left))
      invariant Clear(data, Mask(8 - (n - left)))
    {
      MaskStep(8 - (n - left));
      OneMoreZero(crc, n - left);
      register, data := TailStep(register, data, Mask(7 - (n - left)));
      left := left - 1;
    }
  }

  lemma MaskStep(n: nat)
    requires 0 < n <= 16
    ensures Mask(n) == Widen(Mask(n - 1))
  {
  }

  lemma NoBits(r: bv16)
    ensures Register(r, ZeroBits(0)) == r
  {
  }

  /** The main loop: as many whole bytes as `len` bits hold. */
  method WholeBytes(buf: seq<bv8>, len: nat) returns (register: bv16, left: nat, p: nat)
    requires len <= 8 * |buf|
    ensures p == len / 8 && left == len % 8 && register == Register(SEED, Bits(buf[..p]))
  {
    hide Register, Bits;
    NothingRead(buf);
    register, left, p := SEED, len, 0;
    while left >= 8
      invariant 0 <= p <= |buf| && left == len - 8 * p
      invariant register == Register(SEED, Bits(buf[..p]))
    {
      RegisterSnoc(SEED, buf[..p], buf[p]);
      assert buf[..p + 1] == buf[..p] + [buf[p]];
      register := LookUpByte(register, buf[p]);
      left, p := left - 8, p + 1;
    }
  }

  /** `crc_16_l_calc`; `len` counts bits. A whole number of bytes gives the check sequence of
      these bytes. Odd bits at the end count, but as zeros: what they are is not looked at. */
  method Crc16LCalc(buf: seq<bv8>, len: nat) returns (crc: bv16)
    requires len <= 8 * |buf|
    ensures crc == Complement(Register(SEED, Bits(buf[..len / 8]) + ZeroBits(len % 8)))
    ensures len % 8 == 0 ==> crc == Crc(buf[..len / 8])
  {
    hide *;
    var register, left, p := WholeBytes(buf, len);
    RegisterConcat(SEED, Bits(buf[..p]), ZeroBits(left));
    if left != 0 {
      register := TailBits(register, buf[p], left);
    } else {
      NoBits(register);
      CrcIsComplement(buf[..p], register);
    }
    crc := Complement(register);
  }

  lemma CrcIsComplement(message: seq<bv8>, r: bv16)
    requires r == Register(SEED, Bits(message))
    ensures Crc(message) == Complement(r)
  {
    hide Register, Bits, Complement;
  }

  // ---------------------------------------------------------------------------
  // A message followed by its check bytes
  // ---------------------------------------------------------------------------

  lemma CheckBytesCancel(r: bv16, x: bv8, y: bv8)
    requires CrcBytes(!r) == [x, y]
    ensures ShiftOut8(Xor(ShiftOut8(Xor(r, x as bv16)), y as bv16)) == 0xF0B8
  {
    assert x == (!r & 0xFF) as bv8 && y == (!r >> 8) as bv8;
  }

  lemma TwoBytesThroughRegister(r: bv16, message: seq<bv8>, x: bv8, y: bv8)
    ensures Register(r, Bits(message + [x, y]))
            == ShiftOut8(Xor(ShiftOut8(Xor(Register(r, Bits(message)), x as bv16)), y as bv16))
  {
    hide *;
    assert message + [x, y] == message + [x] + [y];
    RegisterSnoc(r, message, x);
    RegisterSnoc(r, message + [x], y);
    var s := Register(r, Bits(message));
    ByteThroughRegister(s, x);
    ByteThroughRegister(ShiftOut8(Xor(s, x as bv16)), y);
  }

  lemma FeedCheckBytes(message: seq<bv8>, r: bv16, x: bv8, y: bv8)
    requires r == Register(SEED, Bits(message)) && CrcBytes(!r) == [x, y]
    ensures Register(SEED, Bits(message + [x, y])) == 0xF0B8
  {
    hide *;
    TwoBytesThroughRegister(SEED, message, x, y);
    CheckBytesCancel(r, x, y);
  }

  /** Sent low byte first, the check sequence always drives the register to the constant of
      RFC 1662, section C.2; a receiver running the same routine sees its complement. */
  lemma CheckSequenceResidue(message: seq<bv8>)
    ensures Register(SEED, Bits(message + CrcBytes(Crc(message)))) == 0xF0B8
    ensures Crc(message + CrcBytes(Crc(message))) == 0x0F47
  {
    hide Register, Bits;
    var check := CrcBytes(Crc(message));
    assert check == [check[0], check[1]];
    FeedCheckBytes(message, Register(SEED, Bits(message)), check[0], check[1]);
  }

  // ---------------------------------------------------------------------------
  // Damage of up to sixteen bits
  // ---------------------------------------------------------------------------

  /** Undoes `ShiftOut`: the polynomial's top bit tells whether it was fed back. */
  function ShiftIn(r: bv16): bv16 {
    ((r ^ (POLYNOMIAL & (0 - (r >> 15)))) << 1) | (r >> 15)
  }

  lemma ShiftInUndoes(r: bv16)
    ensures ShiftIn(ShiftOut(r)) == r
  {
  }

  lemma XorCancels(r: bv16, s: bv16, x: bv16)
    requires r ^ x == s ^ x
    ensures r == s
  {
  }

  lemma FeedBitInjective(r: bv16, s: bv16, bit: bool)
    requires FeedBit(r, bit) == FeedBit(s, bit)
    ensures r == s
  {
    var x: bv16 := if bit then 1 else 0;
    ShiftInUndoes(r ^ x);
    ShiftInUndoes(s ^ x);
    XorCancels(r, s, x);
  }

  /** Each run of message bits is a bijection on register states. */
  lemma {:induction false} RegisterInjective(r: bv16, s: bv16, bits: seq<bool>)
    requires Register(r, bits) == Register(s, bits)
    ensures r == s
    decreases bits
  {
    if bits != [] {
      RegisterInjective(FeedBit(r, bits[0]), FeedBit(s, bits[0]), bits[1..]);
      FeedBitInjective(r, s, bits[0]);
    }
  }

  /** The bits set in `m` cover every difference between two states. */
  predicate Covers(m: bv16, r: bv16, s: bv16) {
    (r ^ s) & !m == 0
  }

  lemma MaskTop(n: nat)
    requires n <= 15
    ensures Mask(n) & 0x8000 == 0
  {
    if n == 0 {
    } else if n == 1 {
    } else if n == 2 {
    } else if n == 3 {
    } else if n == 4 {
    } else if n == 5 {
    } else if n == 6 {
    } else if n == 7 {
    } else if n == 8 {
    } else if n == 9 {
    } else if n == 10 {
    } else if n == 11 {
    } else if n == 12 {
    } else if n == 13 {
    } else if n == 14 {
    } else if n == 15 {
    }
  }

  lemma DifferenceWidens(r: bv16, s: bv16, x: bool, y: bool, m: bv16)
    requires m & 0x8000 == 0 && Covers(m, FeedBit(r, x), FeedBit(s, y))
    ensures Covers(Widen(m), r, s)
  {
  }

  lemma EqualCovered(r: bv16)
    ensures Covers(0, r, r)
  {
  }

  /** Two states that `n` bits can bring together differ in their lowest `n` bits only. */
  lemma {:induction false} DifferenceCovered(r: bv16, s: bv16, a: seq<bool>, b: seq<bool>)
    requires |a| == |b| <= 16 && Register(r, a) == Register(s, b)
    ensures Covers(Mask(|a|), r, s)
    decreases a
  {
    hide FeedBit, Covers, Widen;
    if a == [] {
      EqualCovered(r);
    } else {
      DifferenceCovered(FeedBit(r, a[0]), FeedBit(s, b[0]), a[1..], b[1..]);
      MaskTop(|a| - 1);
      DifferenceWidens(r, s, a[0], b[0], Mask(|a| - 1));
    }
  }

  lemma DifferentBitsPartTop(r: bv16, bit: bool)
    ensures (FeedBit(r, bit) ^ FeedBit(r, !bit)) & 0x8000 != 0
  {
  }

  lemma {:induction false} BurstSeparates(r: bv16, a: seq<bool>, b: seq<bool>)
    requires |a| == |b| <= 16 && a != b
    ensures Register(r, a) != Register(r, b)
    decreases a
  {
    if a[0] == b[0] {
      assert a == [a[0]] + a[1..] && b == [b[0]] + b[1..];
      BurstSeparates(FeedBit(r, a[0]), a[1..], b[1..]);
    } else if Register(r, a) == Register(r, b) {
      DifferentBitsPartTop(r, a[0]);
      DifferenceCovered(FeedBit(r, a[0]), FeedBit(r, b[0]), a[1..], b[1..]);
      MaskTop(|a| - 1);
    }
  }

  lemma ShiftOut8Injective(r: bv16, s: bv16)
    requires ShiftOut8(r) == ShiftOut8(s)
    ensures r == s
  {
    ShiftIn8Undoes(r);
    ShiftIn8Undoes(s);
  }

  function ShiftIn8(r: bv16): bv16 {
    ShiftIn(ShiftIn(ShiftIn(ShiftIn(ShiftIn(ShiftIn(ShiftIn(ShiftIn(r))))))))
  }

  lemma ShiftIn8Undoes(r: bv16)
    ensures ShiftIn8(ShiftOut8(r)) == r
  {
  }

  lemma ByteBitsInjective(x: bv8, y: bv8)
    requires ByteBits(x) == ByteBits(y)
    ensures x == y
  {
    ByteThroughRegister(0, x);
    ByteThroughRegister(0, y);
    ShiftOut8Injective(Xor(0, x as bv16), Xor(0, y as bv16));
  }

  lemma {:induction false} BitsInjective(a: seq<bv8>, b: seq<bv8>)
    requires |a| == |b| && Bits(a) == Bits(b)
    ensures a == b
  {
    if a != [] {
      assert ByteBits(a[0]) == Bits(a)[..8] && ByteBits(b[0]) == Bits(b)[..8];
      assert Bits(a[1..]) == Bits(a)[8..] && Bits(b[1..]) == Bits(b)[8..];
      ByteBitsInjective(a[0], b[0]);
      BitsInjective(a[1..], b[1..]);
    }
  }

  /** Any damage confined to sixteen consecutive bits, wherever they lie in a message of any
      length, changes the check sequence. */
  lemma BurstDetected(sent: seq<bv8>, received: seq<bv8>, from: nat, to: nat)
    requires |sent| == |received| && sent != received
    requires from <= to <= from + 16 && to <= |Bits(sent)| == |Bits(received)|
    requires Bits(sent)[..from] == Bits(received)[..from] && Bits(sent)[to..] == Bits(received)[to..]
    ensures Crc(sent) != Crc(received)
  {
    var s, r := Bits(sent), Bits(received);
    if s[from..to] == r[from..to] {
      assert s == s[..from] + s[from..to] + s[to..] && r == r[..from] + r[from..to] + r[to..];
      BitsInjective(sent, received);
    }
    var reg := Register(SEED, s[..from]);
    BurstSeparates(reg, s[from..to], r[from..to]);
    RegisterParts(s, from, to);
    RegisterParts(r, from, to);
    if Crc(sent) == Crc(received) {
      RegisterInjective(Register(reg, s[from..to]), Register(reg, r[from..to]), s[to..]);
    }
  }

  lemma RegisterParts(bits: seq<bool>, from: nat, to: nat)
    requires from <= to <= |bits|
    ensures Register(SEED, bits)
            == Register(Register(Register(SEED, bits[..from]), bits[from..to]), bits[to..])
  {
    assert bits == bits[..from] + bits[from..to] + bits[to..];
    RegisterConcat(SEED, bits[..from] + bits[from..to], bits[to..]);
    RegisterConcat(SEED, bits[..from], bits[from..to]);
  }

  lemma BitsOfThree(a: seq<bv8>, b: seq<bv8>, c: seq<bv8>)
    ensures Bits(a + b + c) == Bits(a) + Bits(b) + Bits(c)
  {
    FlatMapConcat(ByteBits, a + b, c);
    FlatMapConcat(ByteBits, a, b);
  }

  /** In particular two adjacent bytes may be replaced by anything else. */
  lemma AdjacentBytesDetected(before: seq<bv8>, a: seq<bv8>, b: seq<bv8>, after: seq<bv8>)
    requires |a| == |b| <= 2 && a != b
    ensures Crc(before + a + after) != Crc(before + b + after)
  {
    var sent, received := before + a + after, before + b + after;
    BitsOfThree(before, a, after);
    BitsOfThree(before, b, after);
    assert sent[|before|..|before| + |a|] == a && received[|before|..|before| + |a|] == b;
    BitsLength(a);
    BitsLength(b);
    hide Bits, Crc;
    var from := |Bits(before)|;
    BurstDetected(sent, received, from, from + 8 * |a|);
  }

  lemma {:induction false} BitsLength(a: seq<bv8>)
    ensures |Bits(a)| == 8 * |a|
  {
    if a != [] {
      BitsLength(a[1..]);
    }
  }
}
