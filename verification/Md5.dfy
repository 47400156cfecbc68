/** The message digest of RFC 1321 as the RFC defines it: sections 3.1 to 3.5. */
module Md5Spec {
  import opened Bytes

  /** A 32-bit word. Wrapped, so that proofs may pass words around without looking at bits. */
  datatype Word = Word(bits: bv32)

  datatype Regs = Regs(a: Word, b: Word, c: Word, d: Word)

  const TWO_29 := 0x2000_0000
  const TWO_61 := 0x2000_0000_0000_0000
  const TWO_64 := 0x1_0000_0000_0000_0000

  /** Section 3.3. */
  const INITIAL := Regs(Word(0x67452301), Word(0xefcdab89), Word(0x98badcfe), Word(0x10325476))

  /** Section 3.4: the integer parts of 4294967296 times abs(sin(i)), a round to a row. */
  const T1: seq<bv32> := [
    0xd76aa478, 0xe8c7b756, 0x242070db, 0xc1bdceee,
    0xf57c0faf, 0x4787c62a, 0xa8304613, 0xfd469501,
    0x698098d8, 0x8b44f7af, 0xffff5bb1, 0x895cd7be,
    0x6b901122, 0xfd987193, 0xa679438e, 0x49b40821]
  const T2: seq<bv32> := [
    0xf61e2562, 0xc040b340, 0x265e5a51, 0xe9b6c7aa,
    0xd62f105d, 0x02441453, 0xd8a1e681, 0xe7d3fbc8,
    0x21e1cde6, 0xc33707d6, 0xf4d50d87, 0x455a14ed,
    0xa9e3e905, 0xfcefa3f8, 0x676f02d9, 0x8d2a4c8a]
  const T3: seq<bv32> := [
    0xfffa3942, 0x8771f681, 0x6d9d6122, 0xfde5380c,
    0xa4beea44, 0x4bdecfa9, 0xf6bb4b60, 0xbebfbc70,
    0x289b7ec6, 0xeaa127fa, 0xd4ef3085, 0x04881d05,
    0xd9d4d039, 0xe6db99e5, 0x1fa27cf8, 0xc4ac5665]
  const T4: seq<bv32> := [
    0xf4292244, 0x432aff97, 0xab9423a7, 0xfc93a039,
    0x655b59c3, 0x8f0ccc92, 0xffeff47d, 0x85845dd1,
    0x6fa87e4f, 0xfe2ce6e0, 0xa3014314, 0x4e0811a1,
    0xf7537e82, 0xbd3af235, 0x2ad7d2bb, 0xeb86d391]

  function Table(i: nat): Word
    requires i < 64
  {
    Word(if i < 16 then T1[i] else if i < 32 then T2[i - 16] else if i < 48 then T3[i - 32] else T4[i - 48])
  }

  function Add(x: Word, y: Word): Word { Word(x.bits + y.bits) }

  function AuxF(x: Word, y: Word, z: Word): Word { Word((x.bits & y.bits) | (!x.bits & z.bits)) }

  function AuxG(x: Word, y: Word, z: Word): Word { Word((x.bits & z.bits) | (y.bits & !z.bits)) }

  function AuxH(x: Word, y: Word, z: Word): Word { Word((x.bits ^ y.bits) ^ z.bits) }

  function AuxI(x: Word, y: Word, z: Word): Word { Word(y.bits ^ (x.bits | !z.bits)) }

  function RotateLeft(x: Word, n: nat): Word
    requires n <= 32
  {
    Word((x.bits << n) | (x.bits >> (32 - n)))
  }

  /** The auxiliary function of operation `i`. */
  function Auxiliary(i: nat, x: Word, y: Word, z: Word): Word
    requires i < 64
  {
    if i < 16 then AuxF(x, y, z) else if i < 32 then AuxG(x, y, z) else if i < 48 then AuxH(x, y, z) else AuxI(x, y, z)
  }

  /** The message word of operation `i`. */
  function WordIndex(i: nat): (k: nat)
    requires i < 64
    ensures k < 16
  {
    if i < 16 then i else if i < 32 then (5 * i + 1) % 16 else if i < 48 then (3 * i + 5) % 16 else 7 * i % 16
  }

  /** The rotation of operation `i`. */
  function Amount(i: nat): (s: nat)
    requires i < 64
    ensures s < 32
  {
    var j := i % 4;
    if i < 16 then (if j == 0 then 7 else if j == 1 then 12 else if j == 2 then 17 else 22)
    else if i < 32 then (if j == 0 then 5 else if j == 1 then 9 else if j == 2 then 14 else 20)
    else if i < 48 then (if j == 0 then 4 else if j == 1 then 11 else if j == 2 then 16 else 23)
    else (if j == 0 then 6 else if j == 1 then 10 else if j == 2 then 15 else 21)
  }

  /** `[ABCD k s i]`; the four registers then change their roles. */
  function Operation(r: Regs, x: seq<Word>, i: nat): Regs
    requires |x| == 16 && i < 64
  {
    var sum := Add(r.a, Add(Add(Auxiliary(i, r.b, r.c, r.d), x[WordIndex(i)]), Table(i)));
    Regs(r.d, Add(RotateLeft(sum, Amount(i)), r.b), r.b, r.c)
  }

  /** The `n` operations from number `from` on. */
  function Operations(r: Regs, x: seq<Word>, from: nat, n: nat): Regs
    requires |x| == 16 && from + n <= 64
    decreases n
  {
    if n == 0 then r else Operations(Operation(r, x, from), x, from + 1, n - 1)
  }

  /** A little-endian word of a block. */
  function WordAt(block: seq<bv8>, n: nat): Word
    requires |block| == 64 && n < 16
  {
    Word((block[4 * n] as bv32) | (block[4 * n + 1] as bv32 << 8)
         | (block[4 * n + 2] as bv32 << 16) | (block[4 * n + 3] as bv32 << 24))
  }

  function Words(block: seq<bv8>): (x: seq<Word>)
    requires |block| == 64
    ensures |x| == 16
  {
    seq(16, n requires 0 <= n < 16 => WordAt(block, n))
  }

  type Block = b: seq<bv8> | |b| == 64 witness seq(64, _ => 0)

  function Compress(r: Regs, block: Block): Regs {
    var x := Words(block);
    var q := Operations(r, x, 0, 4 * |x|);
    Regs(Add(q.a, r.a), Add(q.b, r.b), Add(q.c, r.c), Add(q.d, r.d))
  }

  /** Left fold of a step function over the 64-byte blocks of `data`. */
  function FoldBlocks<R>(step: (R, Block) -> R, r: R, data: seq<bv8>): R
    requires |data| % 64 == 0
  {
    if data == [] then r
    else step(FoldBlocks(step, r, data[..|data| - 64]), data[|data| - 64..])
  }

  function Fold(r: Regs, data: seq<bv8>): Regs
    requires |data| % 64 == 0
  {
    FoldBlocks(Compress, r, data)
  }

  /** Section 3.1: how many zero bytes follow the byte 0x80. */
  function ZeroCount(n: nat): (zeros: nat)
    ensures zeros < 64 && (n + 1 + zeros) % 64 == 56
  {
    (55 - n) % 64
  }

  function Zeros(n: nat): (zeros: seq<bv8>)
    ensures |zeros| == n
  {
    seq(n, _ => 0)
  }

  function LowByte(v: nat): bv8 { (v % 256) as bv8 }

  function LittleEndian(v: nat): (bytes: seq<bv8>)
    ensures |bytes| == 4
  {
    [LowByte(v), LowByte(v / 0x100), LowByte(v / 0x1_0000), LowByte(v / 0x100_0000)]
  }

  /** Section 3.2: the length in bits, modulo 2^64, low word first. */
  function LengthField(n: nat): (bytes: seq<bv8>)
    ensures |bytes| == 8
  {
    var bits := 8 * n % TWO_64;
    LittleEndian(bits % TWO_32) + LittleEndian(bits / TWO_32)
  }

  function Padding(n: nat): (padding: seq<bv8>)
    ensures |padding| == ZeroCount(n) + 9 && (n + |padding|) % 64 == 0
  {
    PaddingFills(n);
    [0x80] + Zeros(ZeroCount(n)) + LengthField(n)
  }

  lemma PaddingFills(n: nat)
    ensures (n + (ZeroCount(n) + 9)) % 64 == 0
  {
    assert n + 1 + ZeroCount(n) == 64 * ((n + 1 + ZeroCount(n)) / 64) + 56;
  }

  function Padded(message: seq<bv8>): (padded: seq<bv8>)
    ensures |padded| % 64 == 0
  {
    message + Padding(|message|)
  }

  function WordBytes(word: Word): seq<bv8> {
    var w := word.bits;
    [(w & 0xFF) as bv8, ((w >> 8) & 0xFF) as bv8, ((w >> 16) & 0xFF) as bv8, ((w >> 24) & 0xFF) as bv8]
  }

  /** Four bytes as a word, the first one lowest. */
  function Joined(b0: bv8, b1: bv8, b2: bv8, b3: bv8): bv32 {
    (b0 as bv32) | (b1 as bv32 << 8) | (b2 as bv32 << 16) | (b3 as bv32 << 24)
  }

  /** The bytes of a word, low byte first, make up the word. */
  lemma WordBytesJoined(word: Word)
    ensures var b := WordBytes(word);
            |b| == 4
            && word.bits == (b[0] as bv32) | (b[1] as bv32 << 8) | (b[2] as bv32 << 16) | (b[3] as bv32 << 24)
            && word.bits == Joined(b[0], b[1], b[2], b[3])
  {
  }

  /** Section 3.5. */
  function Output(r: Regs): seq<bv8> {
    WordBytes(r.a) + WordBytes(r.b) + WordBytes(r.c) + WordBytes(r.d)
  }

  function Digest(message: seq<bv8>): seq<bv8> {
    Output(Fold(INITIAL, Padded(message)))
  }

  lemma {:induction false} FoldConcat<R>(step: (R, Block) -> R, r: R, a: seq<bv8>, b: seq<bv8>)
    requires |a| % 64 == |b| % 64 == 0
    ensures FoldBlocks(step, r, a + b) == FoldBlocks(step, FoldBlocks(step, r, a), b)
    decreases |b|
  {
    if b == [] {
      assert a + b == a;
    } else {
      assert (a + b)[..|a + b| - 64] == a + b[..|b| - 64];
      assert (a + b)[|a + b| - 64..] == b[|b| - 64..];
      FoldConcat(step, r, a, b[..|b| - 64]);
    }
  }

  lemma FoldLast<R>(step: (R, Block) -> R, r: R, data: seq<bv8>)
    requires data != [] && |data| % 64 == 0
    ensures FoldBlocks(step, r, data) == step(FoldBlocks(step, r, data[..|data| - 64]), data[|data| - 64..])
  {
  }
}

/** The digest as `md5.c` computes it: unrolled rounds, a 64-byte buffer carried from call
    to call, and a byte count kept in two words. */
module Md5 {
  import opened Bytes
  import opened Md5Spec
  import opened Sequences

  // ---------------------------------------------------------------------------
  // The macros, and why they are the RFC's operations
  // ---------------------------------------------------------------------------

  function F(x: Word, y: Word, z: Word): Word { Word(z.bits ^ (x.bits & (y.bits ^ z.bits))) }

  function G(x: Word, y: Word, z: Word): Word { Word(y.bits ^ (z.bits & (x.bits ^ y.bits))) }

  function H(x: Word, y: Word, z: Word): Word { Word((x.bits ^ y.bits) ^ z.bits) }

  function H2(x: Word, y: Word, z: Word): Word { Word(x.bits ^ (y.bits ^ z.bits)) }

  function I(x: Word, y: Word, z: Word): Word { Word(y.bits ^ (x.bits | !z.bits)) }

  function Rotate(a: Word, s: nat): Word
    requires s <= 32
  {
    Word((a.bits << s) | ((a.bits & 0xffffffff) >> (32 - s)))
  }

  /** The new value of register `a`; `f` is the auxiliary function's value. */
  function Step(f: Word, a: Word, b: Word, x: Word, t: bv32, s: nat): Word
    requires s <= 32
  {
    Add(Rotate(Add(a, Add(Add(f, x), Word(t))), s), b)
  }

  /** The macro that the `i`-th STEP line names. */
  function Macro(i: nat, x: Word, y: Word, z: Word): Word
    requires i < 64
  {
    if i < 16 then F(x, y, z)
    else if i < 32 then G(x, y, z)
    else if i < 48 then (if i % 2 == 0 then H(x, y, z) else H2(x, y, z))
    else I(x, y, z)
  }

  lemma FIsAuxF(x: Word, y: Word, z: Word)
    ensures F(x, y, z) == AuxF(x, y, z)
  {
  }

  lemma GIsAuxG(x: Word, y: Word, z: Word)
    ensures G(x, y, z) == AuxG(x, y, z)
  {
  }

  lemma HIsAuxH(x: Word, y: Word, z: Word)
    ensures H(x, y, z) == AuxH(x, y, z) == H2(x, y, z)
  {
  }

  lemma IIsAuxI(x: Word, y: Word, z: Word)
    ensures I(x, y, z) == AuxI(x, y, z)
  {
  }

  lemma MacroIsAuxiliary(i: nat, x: Word, y: Word, z: Word)
    requires i < 64
    ensures Macro(i, x, y, z) == Auxiliary(i, x, y, z)
  {
    hide F, G, H, H2, I, AuxF, AuxG, AuxH, AuxI;
    FIsAuxF(x, y, z);
    GIsAuxG(x, y, z);
    HIsAuxH(x, y, z);
    IIsAuxI(x, y, z);
  }

  lemma RotateIsRotateLeft(a: Word, s: nat)
    requires s <= 32
    ensures Rotate(a, s) == RotateLeft(a, s)
  {
    assert a.bits & 0xffffffff == a.bits;
  }

  /** What the `i`-th STEP line writes. */
  function StepAt(r: Regs, x: seq<Word>, i: nat): Word
    requires |x| == 16 && i < 64
  {
    Step(Macro(i, r.b, r.c, r.d), r.a, r.b, x[WordIndex(i)], Table(i).bits, Amount(i))
  }

  lemma StepIsOperation(r: Regs, x: seq<Word>, i: nat)
    requires |x| == 16 && i < 64
    ensures Operation(r, x, i) == Regs(r.d, StepAt(r, x, i), r.b, r.c)
  {
    hide Macro, Auxiliary, Rotate, RotateLeft, Table, WordIndex, Amount, Add;
    MacroIsAuxiliary(i, r.b, r.c, r.d);
    RotateIsRotateLeft(Add(r.a, Add(Add(Auxiliary(i, r.b, r.c, r.d), x[WordIndex(i)]), Table(i))), Amount(i));
  }

  /** After four operations the registers are back in their places. */
  lemma FourSteps(r: Regs, x: seq<Word>, i: nat, a: Word, b: Word, c: Word, d: Word)
    requires |x| == 16 && i + 4 <= 64
    requires a == StepAt(r, x, i)
    requires d == StepAt(Regs(r.d, a, r.b, r.c), x, i + 1)
    requires c == StepAt(Regs(r.c, d, a, r.b), x, i + 2)
    requires b == StepAt(Regs(r.b, c, d, a), x, i + 3)
    ensures Operations(r, x, i, 4) == Regs(a, b, c, d)
  {
    hide StepAt, Operation;
    StepIsOperation(r, x, i);
    StepIsOperation(Regs(r.d, a, r.b, r.c), x, i + 1);
    StepIsOperation(Regs(r.c, d, a, r.b), x, i + 2);
    StepIsOperation(Regs(r.b, c, d, a), x, i + 3);
  }

  lemma {:induction false} OperationsSplit(r: Regs, x: seq<Word>, from: nat, m: nat, n: nat)
    requires |x| == 16 && from + m + n <= 64
    ensures Operations(r, x, from, m + n) == Operations(Operations(r, x, from, m), x, from + m, n)
    decreases m
  {
    hide Operation;
    if m > 0 {
      OperationsSplit(Operation(r, x, from), x, from + 1, m - 1, n);
    }
  }

  lemma FourTimesFour(r0: Regs, r1: Regs, r2: Regs, r3: Regs, r4: Regs, x: seq<Word>, i: nat, j: nat, k: nat, l: nat)
    requires |x| == 16 && j == i + 4 && k == i + 8 && l == i + 12 && i + 16 <= 64
    requires r1 == Operations(r0, x, i, 4) && r2 == Operations(r1, x, j, 4)
    requires r3 == Operations(r2, x, k, 4) && r4 == Operations(r3, x, l, 4)
    ensures r4 == Operations(r0, x, i, 16)
  {
    hide Operations;
    OperationsSplit(r0, x, i, 4, 12);
    OperationsSplit(r1, x, i + 4, 4, 8);
    OperationsSplit(r2, x, i + 8, 4, 4);
  }

  lemma Indices1()
    ensures WordIndex(0) == 0 && Amount(0) == 7
    ensures WordIndex(1) == 1 && Amount(1) == 12
    ensures WordIndex(2) == 2 && Amount(2) == 17
    ensures WordIndex(3) == 3 && Amount(3) == 22
    ensures WordIndex(4) == 4 && Amount(4) == 7
    ensures WordIndex(5) == 5 && Amount(5) == 12
    ensures WordIndex(6) == 6 && Amount(6) == 17
    ensures WordIndex(7) == 7 && Amount(7) == 22
    ensures WordIndex(8) == 8 && Amount(8) == 7
    ensures WordIndex(9) == 9 && Amount(9) == 12
    ensures WordIndex(10) == 10 && Amount(10) == 17
    ensures WordIndex(11) == 11 && Amount(11) == 22
    ensures WordIndex(12) == 12 && Amount(12) == 7
    ensures WordIndex(13) == 13 && Amount(13) == 12
    ensures WordIndex(14) == 14 && Amount(14) == 17
    ensures WordIndex(15) == 15 && Amount(15) == 22
  {
  }

  lemma Table1()
    ensures Table(0) == Word(0xd76aa478)
    ensures Table(1) == Word(0xe8c7b756)
    ensures Table(2) == Word(0x242070db)
    ensures Table(3) == Word(0xc1bdceee)
    ensures Table(4) == Word(0xf57c0faf)
    ensures Table(5) == Word(0x4787c62a)
    ensures Table(6) == Word(0xa8304613)
    ensures Table(7) == Word(0xfd469501)
  {
  }

  lemma Table1Rest()
    ensures Table(8) == Word(0x698098d8)
    ensures Table(9) == Word(0x8b44f7af)
    ensures Table(10) == Word(0xffff5bb1)
    ensures Table(11) == Word(0x895cd7be)
    ensures Table(12) == Word(0x6b901122)
    ensures Table(13) == Word(0xfd987193)
    ensures Table(14) == Word(0xa679438e)
    ensures Table(15) == Word(0x49b40821)
  {
  }

  /** Round 1: its sixteen STEP lines. */
  method Round1(x: seq<Word>, a0: Word, b0: Word, c0: Word, d0: Word)
    returns (a: Word, b: Word, c: Word, d: Word)
    requires |x| == 16
    ensures Regs(a, b, c, d) == Operations(Regs(a0, b0, c0, d0), x, 0, 16)
  {
    hide Step, F, G, H, H2, I, Operations, Table, WordIndex, Amount;
    Indices1();
    Table1();
    Table1Rest();
    a, b, c, d := a0, b0, c0, d0;
    ghost var r0 := Regs(a, b, c, d);
    a := Step(F(b, c, d), a, b, x[0], 0xd76aa478, 7);
    d := Step(F(a, b, c), d, a, x[1], 0xe8c7b756, 12);
    c := Step(F(d, a, b), c, d, x[2], 0x242070db, 17);
    b := Step(F(c, d, a), b, c, x[3], 0xc1bdceee, 22);
    FourSteps(r0, x, 0, a, b, c, d);
    ghost var r1 := Regs(a, b, c, d);
    a := Step(F(b, c, d), a, b, x[4], 0xf57c0faf, 7);
    d := Step(F(a, b, c), d, a, x[5], 0x4787c62a, 12);
    c := Step(F(d, a, b), c, d, x[6], 0xa8304613, 17);
    b := Step(F(c, d, a), b, c, x[7], 0xfd469501, 22);
    FourSteps(r1, x, 4, a, b, c, d);
    ghost var r2 := Regs(a, b, c, d);
    a := Step(F(b, c, d), a, b, x[8], 0x698098d8, 7);
    d := Step(F(a, b, c), d, a, x[9], 0x8b44f7af, 12);
    c := Step(F(d, a, b), c, d, x[10], 0xffff5bb1, 17);
    b := Step(F(c, d, a), b, c, x[11], 0x895cd7be, 22);
    FourSteps(r2, x, 8, a, b, c, d);
    ghost var r3 := Regs(a, b, c, d);
    a := Step(F(b, c, d), a, b, x[12], 0x6b901122, 7);
    d := Step(F(a, b, c), d, a, x[13], 0xfd987193, 12);
    c := Step(F(d, a, b), c, d, x[14], 0xa679438e, 17);
    b := Step(F(c, d, a), b, c, x[15], 0x49b40821, 22);
    FourSteps(r3, x, 12, a, b, c, d);
    FourTimesFour(r0, r1, r2, r3, Regs(a, b, c, d), x, 0, 4, 8, 12);
  }

  lemma Indices2()
    ensures WordIndex(16) == 1 && Amount(16) == 5
    ensures WordIndex(17) == 6 && Amount(17) == 9
    ensures WordIndex(18) == 11 && Amount(18) == 14
    ensures WordIndex(19) == 0 && Amount(19) == 20
    ensures WordIndex(20) == 5 && Amount(20) == 5
    ensures WordIndex(21) == 10 && Amount(21) == 9
    ensures WordIndex(22) == 15 && Amount(22) == 14
    ensures WordIndex(23) == 4 && Amount(23) == 20
    ensures WordIndex(24) == 9 && Amount(24) == 5
    ensures WordIndex(25) == 14 && Amount(25) == 9
    ensures WordIndex(26) == 3 && Amount(26) == 14
    ensures WordIndex(27) == 8 && Amount(27) == 20
    ensures WordIndex(28) == 13 && Amount(28) == 5
    ensures WordIndex(29) == 2 && Amount(29) == 9
    ensures WordIndex(30) == 7 && Amount(30) == 14
    ensures WordIndex(31) == 12 && Amount(31) == 20
  {
  }

  lemma Table2()
    ensures Table(16) == Word(0xf61e2562)
    ensures Table(17) == Word(0xc040b340)
    ensures Table(18) == Word(0x265e5a51)
    ensures Table(19) == Word(0xe9b6c7aa)
    ensures Table(20) == Word(0xd62f105d)
    ensures Table(21) == Word(0x02441453)
    ensures Table(22) == Word(0xd8a1e681)
    ensures Table(23) == Word(0xe7d3fbc8)
  {
  }

  lemma Table2Rest()
    ensures Table(24) == Word(0x21e1cde6)
    ensures Table(25) == Word(0xc33707d6)
    ensures Table(26) == Word(0xf4d50d87)
    ensures Table(27) == Word(0x455a14ed)
    ensures Table(28) == Word(0xa9e3e905)
    ensures Table(29) == Word(0xfcefa3f8)
    ensures Table(30) == Word(0x676f02d9)
    ensures Table(31) == Word(0x8d2a4c8a)
  {
  }

  /** Round 2: its sixteen STEP lines. */
  method Round2(x: seq<Word>, a0: Word, b0: Word, c0: Word, d0: Word)
    returns (a: Word, b: Word, c: Word, d: Word)
    requires |x| == 16
    ensures Regs(a, b, c, d) == Operations(Regs(a0, b0, c0, d0), x, 16, 16)
  {
    hide Step, F, G, H, H2, I, Operations, Table, WordIndex, Amount;
    Indices2();
    Table2();
    Table2Rest();
    a, b, c, d := a0, b0, c0, d0;
    ghost var r0 := Regs(a, b, c, d);
    a := Step(G(b, c, d), a, b, x[1], 0xf61e2562, 5);
    d := Step(G(a, b, c), d, a, x[6], 0xc040b340, 9);
    c := Step(G(d, a, b), c, d, x[11], 0x265e5a51, 14);
    b := Step(G(c, d, a), b, c, x[0], 0xe9b6c7aa, 20);
    FourSteps(r0, x, 16, a, b, c, d);
    ghost var r1 := Regs(a, b, c, d);
    a := Step(G(b, c, d), a, b, x[5], 0xd62f105d, 5);
    d := Step(G(a, b, c), d, a, x[10], 0x02441453, 9);
    c := Step(G(d, a, b), c, d, x[15], 0xd8a1e681, 14);
    b := Step(G(c, d, a), b, c, x[4], 0xe7d3fbc8, 20);
    FourSteps(r1, x, 20, a, b, c, d);
    ghost var r2 := Regs(a, b, c, d);
    a := Step(G(b, c, d), a, b, x[9], 0x21e1cde6, 5);
    d := Step(G(a, b, c), d, a, x[14], 0xc33707d6, 9);
    c := Step(G(d, a, b), c, d, x[3], 0xf4d50d87, 14);
    b := Step(G(c, d, a), b, c, x[8], 0x455a14ed, 20);
    FourSteps(r2, x, 24, a, b, c, d);
    ghost var r3 := Regs(a, b, c, d);
    a := Step(G(b, c, d), a, b, x[13], 0xa9e3e905, 5);
    d := Step(G(a, b, c), d, a, x[2], 0xfcefa3f8, 9);
    c := Step(G(d, a, b), c, d, x[7], 0x676f02d9, 14);
    b := Step(G(c, d, a), b, c, x[12], 0x8d2a4c8a, 20);
    FourSteps(r3, x, 28, a, b, c, d);
    FourTimesFour(r0, r1, r2, r3, Regs(a, b, c, d), x, 16, 20, 24, 28);
  }

  lemma Indices3()
    ensures WordIndex(32) == 5 && Amount(32) == 4
    ensures WordIndex(33) == 8 && Amount(33) == 11
    ensures WordIndex(34) == 11 && Amount(34) == 16
    ensures WordIndex(35) == 14 && Amount(35) == 23
    ensures WordIndex(36) == 1 && Amount(36) == 4
    ensures WordIndex(37) == 4 && Amount(37) == 11
    ensures WordIndex(38) == 7 && Amount(38) == 16
    ensures WordIndex(39) == 10 && Amount(39) == 23
    ensures WordIndex(40) == 13 && Amount(40) == 4
    ensures WordIndex(41) == 0 && Amount(41) == 11
    ensures WordIndex(42) == 3 && Amount(42) == 16
    ensures WordIndex(43) == 6 && Amount(43) == 23
    ensures WordIndex(44) == 9 && Amount(44) == 4
    ensures WordIndex(45) == 12 && Amount(45) == 11
    ensures WordIndex(46) == 15 && Amount(46) == 16
    ensures WordIndex(47) == 2 && Amount(47) == 23
  {
  }

  lemma Table3()
    ensures Table(32) == Word(0xfffa3942)
    ensures Table(33) == Word(0x8771f681)
    ensures Table(34) == Word(0x6d9d6122)
    ensures Table(35) == Word(0xfde5380c)
    ensures Table(36) == Word(0xa4beea44)
    ensures Table(37) == Word(0x4bdecfa9)
    ensures Table(38) == Word(0xf6bb4b60)
    ensures Table(39) == Word(0xbebfbc70)
  {
  }

  lemma Table3Rest()
    ensures Table(40) == Word(0x289b7ec6)
    ensures Table(41) == Word(0xeaa127fa)
    ensures Table(42) == Word(0xd4ef3085)
    ensures Table(43) == Word(0x04881d05)
    ensures Table(44) == Word(0xd9d4d039)
    ensures Table(45) == Word(0xe6db99e5)
    ensures Table(46) == Word(0x1fa27cf8)
    ensures Table(47) == Word(0xc4ac5665)
  {
  }

  /** Round 3: its sixteen STEP lines. */
  method Round3(x: seq<Word>, a0: Word, b0: Word, c0: Word, d0: Word)
    returns (a: Word, b: Word, c: Word, d: Word)
    requires |x| == 16
    ensures Regs(a, b, c, d) == Operations(Regs(a0, b0, c0, d0), x, 32, 16)
  {
    hide Step, F, G, H, H2, I, Operations, Table, WordIndex, Amount;
    Indices3();
    Table3();
    Table3Rest();
    a, b, c, d := a0, b0, c0, d0;
    ghost var r0 := Regs(a, b, c, d);
    a := Step(H(b, c, d), a, b, x[5], 0xfffa3942, 4);
    d := Step(H2(a, b, c), d, a, x[8], 0x8771f681, 11);
    c := Step(H(d, a, b), c, d, x[11], 0x6d9d6122, 16);
    b := Step(H2(c, d, a), b, c, x[14], 0xfde5380c, 23);
    FourSteps(r0, x, 32, a, b, c, d);
    ghost var r1 := Regs(a, b, c, d);
    a := Step(H(b, c, d), a, b, x[1], 0xa4beea44, 4);
    d := Step(H2(a, b, c), d, a, x[4], 0x4bdecfa9, 11);
    c := Step(H(d, a, b), c, d, x[7], 0xf6bb4b60, 16);
    b := Step(H2(c, d, a), b, c, x[10], 0xbebfbc70, 23);
    FourSteps(r1, x, 36, a, b, c, d);
    ghost var r2 := Regs(a, b, c, d);
    a := Step(H(b, c, d), a, b, x[13], 0x289b7ec6, 4);
    d := Step(H2(a, b, c), d, a, x[0], 0xeaa127fa, 11);
    c := Step(H(d, a, b), c, d, x[3], 0xd4ef3085, 16);
    b := Step(H2(c, d, a), b, c, x[6], 0x04881d05, 23);
    FourSteps(r2, x, 40, a, b, c, d);
    ghost var r3 := Regs(a, b, c, d);
    a := Step(H(b, c, d), a, b, x[9], 0xd9d4d039, 4);
    d := Step(H2(a, b, c), d, a, x[12], 0xe6db99e5, 11);
    c := Step(H(d, a, b), c, d, x[15], 0x1fa27cf8, 16);
    b := Step(H2(c, d, a), b, c, x[2], 0xc4ac5665, 23);
    FourSteps(r3, x, 44, a, b, c, d);
    FourTimesFour(r0, r1, r2, r3, Regs(a, b, c, d), x, 32, 36, 40, 44);
  }

  lemma Indices4()
    ensures WordIndex(48) == 0 && Amount(48) == 6
    ensures WordIndex(49) == 7 && Amount(49) == 10
    ensures WordIndex(50) == 14 && Amount(50) == 15
    ensures WordIndex(51) == 5 && Amount(51) == 21
    ensures WordIndex(52) == 12 && Amount(52) == 6
    ensures WordIndex(53) == 3 && Amount(53) == 10
    ensures WordIndex(54) == 10 && Amount(54) == 15
    ensures WordIndex(55) == 1 && Amount(55) == 21
    ensures WordIndex(56) == 8 && Amount(56) == 6
    ensures WordIndex(57) == 15 && Amount(57) == 10
    ensures WordIndex(58) == 6 && Amount(58) == 15
    ensures WordIndex(59) == 13 && Amount(59) == 21
    ensures WordIndex(60) == 4 && Amount(60) == 6
    ensures WordIndex(61) == 11 && Amount(61) == 10
    ensures WordIndex(62) == 2 && Amount(62) == 15
    ensures WordIndex(63) == 9 && Amount(63) == 21
  {
  }

  lemma Table4()
    ensures Table(48) == Word(0xf4292244)
    ensures Table(49) == Word(0x432aff97)
    ensures Table(50) == Word(0xab9423a7)
    ensures Table(51) == Word(0xfc93a039)
    ensures Table(52) == Word(0x655b59c3)
    ensures Table(53) == Word(0x8f0ccc92)
    ensures Table(54) == Word(0xffeff47d)
    ensures Table(55) == Word(0x85845dd1)
  {
  }

  lemma Table4Rest()
    ensures Table(56) == Word(0x6fa87e4f)
    ensures Table(57) == Word(0xfe2ce6e0)
    ensures Table(58) == Word(0xa3014314)
    ensures Table(59) == Word(0x4e0811a1)
    ensures Table(60) == Word(0xf7537e82)
    ensures Table(61) == Word(0xbd3af235)
    ensures Table(62) == Word(0x2ad7d2bb)
    ensures Table(63) == Word(0xeb86d391)
  {
  }

  /** Round 4: its sixteen STEP lines. */
  method Round4(x: seq<Word>, a0: Word, b0: Word, c0: Word, d0: Word)
    returns (a: Word, b: Word, c: Word, d: Word)
    requires |x| == 16
    ensures Regs(a, b, c, d) == Operations(Regs(a0, b0, c0, d0), x, 48, 16)
  {
    hide Step, F, G, H, H2, I, Operations, Table, WordIndex, Amount;
    Indices4();
    Table4();
    Table4Rest();
    a, b, c, d := a0, b0, c0, d0;
    ghost var r0 := Regs(a, b, c, d);
    a := Step(I(b, c, d), a, b, x[0], 0xf4292244, 6);
    d := Step(I(a, b, c), d, a, x[7], 0x432aff97, 10);
    c := Step(I(d, a, b), c, d, x[14], 0xab9423a7, 15);
    b := Step(I(c, d, a), b, c, x[5], 0xfc93a039, 21);
    FourSteps(r0, x, 48, a, b, c, d);
    ghost var r1 := Regs(a, b, c, d);
    a := Step(I(b, c, d), a, b, x[12], 0x655b59c3, 6);
    d := Step(I(a, b, c), d, a, x[3], 0x8f0ccc92, 10);
    c := Step(I(d, a, b), c, d, x[10], 0xffeff47d, 15);
    b := Step(I(c, d, a), b, c, x[1], 0x85845dd1, 21);
    FourSteps(r1, x, 52, a, b, c, d);
    ghost var r2 := Regs(a, b, c, d);
    a := Step(I(b, c, d), a, b, x[8], 0x6fa87e4f, 6);
    d := Step(I(a, b, c), d, a, x[15], 0xfe2ce6e0, 10);
    c := Step(I(d, a, b), c, d, x[6], 0xa3014314, 15);
    b := Step(I(c, d, a), b, c, x[13], 0x4e0811a1, 21);
    FourSteps(r2, x, 56, a, b, c, d);
    ghost var r3 := Regs(a, b, c, d);
    a := Step(I(b, c, d), a, b, x[4], 0xf7537e82, 6);
    d := Step(I(a, b, c), d, a, x[11], 0xbd3af235, 10);
    c := Step(I(d, a, b), c, d, x[2], 0x2ad7d2bb, 15);
    b := Step(I(c, d, a), b, c, x[9], 0xeb86d391, 21);
    FourSteps(r3, x, 60, a, b, c, d);
    FourTimesFour(r0, r1, r2, r3, Regs(a, b, c, d), x, 48, 52, 56, 60);
  }

  lemma FourRounds(r: Regs, x: seq<Word>)
    requires |x| == 16
    ensures Operations(r, x, 0, 64)
            == Operations(Operations(Operations(Operations(r, x, 0, 16), x, 16, 16), x, 32, 16), x, 48, 16)
  {
    hide Operations;
    OperationsSplit(r, x, 0, 16, 48);
    var r1 := Operations(r, x, 0, 16);
    OperationsSplit(r1, x, 16, 16, 32);
    OperationsSplit(Operations(r1, x, 16, 16), x, 32, 16, 16);
  }

  // ---------------------------------------------------------------------------
  // The running context
  // ---------------------------------------------------------------------------

  function Whole(n: nat): (w: nat)
    ensures w <= n && w % 64 == 0 && n - w == n % 64
  {
    n / 64 * 64
  }

  lemma WholeFrom(n: nat, p: nat)
    requires p <= n && p % 64 == 0
    ensures Whole(n) == p + (n - p) / 64 * 64 && n % 64 == (n - p) % 64
    ensures n - p < 64 ==> (n - p) / 64 == 0
  {
    assert p == p / 64 * 64;
  }

  class Md5Context {
    var lo: nat
    var hi: nat
    var a: Word
    var b: Word
    var c: Word
    var d: Word
    const buffer: array<bv8>

    ghost function State(): Regs
      reads `a, `b, `c, `d
    {
      Regs(a, b, c, d)
    }

    /** The two count words hold a length of `n` bytes modulo 2^61. */
    ghost predicate Counts(n: nat)
      reads `lo, `hi
    {
      lo < TWO_29 && hi < TWO_32 && hi * TWO_29 + lo == n % TWO_61
    }

    /** The whole blocks of `message` are folded, the rest waits in the buffer. */
    ghost predicate Absorbed(message: seq<bv8>)
      reads `a, `b, `c, `d, buffer
    {
      && buffer.Length == 64
      && State() == Fold(INITIAL, message[..Whole(|message|)])
      && buffer[..|message| % 64] == message[Whole(|message|)..]
    }

    /** The context has taken in exactly `message`. */
    ghost predicate Holds(message: seq<bv8>)
      reads this, buffer
    {
      Counts(|message|) && Absorbed(message)
    }

    /** `md5_begin` on fresh memory. */
    constructor ()
      ensures Holds([]) && fresh(buffer)
    {
      buffer := new bv8[64](_ => 0);
      a, b, c, d := Word(0x67452301), Word(0xefcdab89), Word(0x98badcfe), Word(0x10325476);
      lo, hi := 0, 0;
    }

    /** `body`: a do-while over 64-byte blocks, so `data` must hold at least one. */
    method Body(data: seq<bv8>)
      requires data != [] && |data| % 64 == 0
      modifies `a, `b, `c, `d
      ensures State() == Fold(old(State()), data)
    {
      hide Compress, Fold;
      FoldNothing(State());
      assert data[..0] == [];
      var size, ptr := |data|, 0;
      var more := true;
      while more
        invariant 0 <= size <= |data| && ptr == |data| - size && ptr % 64 == 0
        invariant more <==> size != 0
        invariant State() == Fold(old(State()), data[..ptr])
        decreases size
      {
        NextBlock(old(State()), data, ptr);
        BlockStep(data[ptr..ptr + 64]);
        ptr := ptr + 64;
        size := size - 64;
        more := size != 0;
      }
      assert data[..ptr] == data;
    }

    /** The words of a block as the `SET` macro reads them, low byte first. */
    method SetWords(block: Block) returns (x: seq<Word>)
      ensures x == Words(block)
    {
      x := [];
      for n := 0 to 16
        invariant |x| == n && forall i :: 0 <= i < n ==> x[i] == WordAt(block, i)
      {
        var b0, b1, b2, b3 := block[4 * n], block[4 * n + 1], block[4 * n + 2], block[4 * n + 3];
        x := x + [Word((b0 as bv32) | (b1 as bv32 << 8) | (b2 as bv32 << 16) | (b3 as bv32 << 24))];
      }
    }

    /** One pass of the do-while. */
    method BlockStep(block: Block)
      modifies `a, `b, `c, `d
      ensures State() == Compress(old(State()), block)
    {
      hide Operations, Add, Words;
      var x := SetWords(block);
      var savedA, savedB, savedC, savedD := a, b, c, d;
      a, b, c, d := Round1(x, a, b, c, d);
      a, b, c, d := Round2(x, a, b, c, d);
      a, b, c, d := Round3(x, a, b, c, d);
      a, b, c, d := Round4(x, a, b, c, d);
      FourRounds(old(State()), x);
      assert 4 * |x| == 64;
      a := Add(a, savedA);
      b := Add(b, savedB);
      c := Add(c, savedC);
      d := Add(d, savedD);
    }

    /** `memcpy` into the buffer. */
    method CopyIn(at: nat, src: seq<bv8>)
      requires at + |src| <= buffer.Length
      modifies buffer
      ensures buffer[..] == old(buffer[..at]) + src + old(buffer[at + |src|..])
    {
      forall k | 0 <= k < |src| {
        buffer[at + k] := src[k];
      }
    }

    /** The count update of `md5_hash`; `used` bytes of the buffer were waiting before. */
    method Count(size: nat, ghost n: nat) returns (used: nat)
      requires Counts(n)
      modifies `lo, `hi
      ensures Counts(n + size) && used == n % 64
    {
      var savedLo := lo;
      lo := (savedLo + size) % TWO_29;
      if lo < savedLo {
        hi := (hi + 1) % TWO_32;
      }
      hi := (hi + size / TWO_29) % TWO_32;
      CountAdvances(old(hi), savedLo, n, size, hi, lo);
      used := savedLo % 64;
    }

    /** Tops up the buffer to a full block and folds it in. */
    method CompleteBlock(used: nat, part: seq<bv8>, ghost message: seq<bv8>, ghost all: seq<bv8>)
      requires Absorbed(message) && used == |message| % 64 && used + |part| == 64
      requires all == message + part && |all| % 64 == 0
      modifies `a, `b, `c, `d, buffer
      ensures State() == Fold(INITIAL, all)
    {
      hide Fold;
      ghost var w := Whole(|message|);
      CopyIn(used, part);
      assert buffer[..] == message[w..] + part;
      assert all == message[..w] + buffer[..];
      ghost var s := State();
      Body(buffer[..]);
      Resume(s, State(), message[..w], message[w..] + part, all);
    }

    /** Input that leaves the buffer short of a block. */
    method KeepInBuffer(used: nat, data: seq<bv8>, ghost message: seq<bv8>)
      requires Absorbed(message) && used == |message| % 64 && used + |data| < 64
      modifies buffer
      ensures Absorbed(message + data)
    {
      hide Fold, Whole;
      CopyIn(used, data);
      StaysInBuffer(message, data);
    }

    /** Input that completes the block in the buffer; `p` bytes of `all` are then folded. */
    method TopUp(used: nat, input: seq<bv8>, ghost message: seq<bv8>, ghost all: seq<bv8>)
      returns (rest: seq<bv8>, ghost p: nat)
      requires Absorbed(message) && used == |message| % 64 && used + |input| >= 64 && all == message + input
      modifies `a, `b, `c, `d, buffer
      ensures p <= |all| && p % 64 == 0 && rest == all[p..] && State() == Fold(INITIAL, all[..p])
      ensures buffer.Length == 64
    {
      hide Fold, Whole;
      var available := 64 - used;
      p := Whole(|message|) + 64;
      assert all[..p] == message + input[..available];
      CompleteBlock(used, input[..available], message, all[..p]);
      rest := input[available..];
    }

    /** With an empty buffer the whole message is folded. */
    lemma AllFolded(message: seq<bv8>)
      requires Absorbed(message) && |message| % 64 == 0
      ensures State() == Fold(INITIAL, message) && buffer.Length == 64
    {
      assert message[..Whole(|message|)] == message;
    }

    /** `md5_hash`. */
    method Hash(input: seq<bv8>, ghost message: seq<bv8>)
      requires Holds(message)
      modifies this, buffer
      ensures Holds(message + input)
    {
      hide Fold, Counts, Whole, Absorbed;
      var used := Count(|input|, |message|);
      var data := input;
      ghost var all := message + input;
      ghost var p := |message|;
      if used != 0 {
        if |data| < 64 - used {
          KeepInBuffer(used, data, message);
          return;
        }
        data, p := TopUp(used, data, message, all);
      } else {
        AllFolded(message);
        assert all[..p] == message && all[p..] == input;
      }
      HashTail(data, all, p);
    }

    /** The end of `md5_hash`: whole blocks straight from the input, the rest to the buffer. */
    method HashTail(input: seq<bv8>, ghost all: seq<bv8>, ghost p: nat)
      requires buffer.Length == 64 && p <= |all| && p % 64 == 0 && input == all[p..]
      requires State() == Fold(INITIAL, all[..p])
      modifies `a, `b, `c, `d, buffer
      ensures Absorbed(all)
    {
      hide Fold, Whole;
      WholeFrom(|all|, p);
      var data := input;
      var size := |data|;
      if size >= 64 {
        var whole := size / 64 * 64;
        assert data[..whole] == all[p..p + whole];
        ghost var s := State();
        Body(data[..whole]);
        Resume(s, State(), all[..p], data[..whole], all[..p + whole]);
        data := data[whole..];
        size := size % 64;
      }
      CopyIn(0, data);
    }

    method BytesOfCount(v: nat) returns (b0: bv8, b1: bv8, b2: bv8, b3: bv8)
      ensures LittleEndian(v) == [b0, b1, b2, b3]
    {
      b0, b1 := (v % 256) as bv8, (v / 0x100 % 256) as bv8;
      b2, b3 := (v / 0x1_0000 % 256) as bv8, (v / 0x100_0000 % 256) as bv8;
    }

    /** The last eight bytes of the buffer take the length in bits, low word first. */
    method StoreLength(ghost n: nat)
      requires Counts(n) && buffer.Length == 64
      modifies `lo, buffer
      ensures buffer[..] == old(buffer[..56]) + LengthField(n)
    {
      hide LengthField, LittleEndian;
      LengthFromCounts(hi, lo, n);
      lo := lo * 8 % TWO_32;
      buffer[56], buffer[57], buffer[58], buffer[59] := BytesOfCount(lo);
      buffer[60], buffer[61], buffer[62], buffer[63] := BytesOfCount(hi);
      assert buffer[..] == buffer[..56] + LittleEndian(lo) + LittleEndian(hi);
    }

    /** Pads, folds in the last one or two blocks: `md5_end` up to the result. */
    method Finish(ghost message: seq<bv8>)
      requires Holds(message)
      modifies this, buffer
      ensures State() == Fold(INITIAL, Padded(message))
    {
      hide Fold, Counts, LengthField;
      ghost var n := |message|;
      ghost var w := Whole(n);
      ghost var left := message[w..];
      ghost var s := State();
      var used := UsedBytes(n);
      buffer[used] := 0x80;
      used := used + 1;
      var available := 64 - used;
      ghost var first: seq<bv8> := [];
      if available < 8 {
        CopyIn(used, Zeros(available));
        first := left + [0x80] + Zeros(available);
        assert buffer[..] == first;
        Body(buffer[..]);
        used, available := 0, 64;
      } else {
        FoldNothing(s);
      }
      ghost var t := State();
      CopyIn(used, Zeros(available - 8));
      StoreLength(n);
      ghost var last := buffer[..];
      Body(buffer[..]);
      assert first == [] ==> last == left + [0x80] + Zeros(available - 8) + LengthField(n);
      assert first != [] ==> last == Zeros(56) + LengthField(n);
      PaddingLayout(message, first, last);
      Resume(s, t, message[..w], first, message[..w] + first);
      Resume(t, State(), message[..w] + first, last, Padded(message));
    }

    method UsedBytes(ghost n: nat) returns (used: nat)
      requires Counts(n)
      ensures used == n % 64
    {
      used := lo % 64;
    }

    /** The sixteen result bytes: the registers in order, each with its low byte first. */
    method StoreResult(result: array<bv8>)
      requires result.Length >= 16
      modifies result
      ensures a.bits == Joined(result[0], result[1], result[2], result[3])
      ensures b.bits == Joined(result[4], result[5], result[6], result[7])
      ensures c.bits == Joined(result[8], result[9], result[10], result[11])
      ensures d.bits == Joined(result[12], result[13], result[14], result[15])
      ensures result[..] == Output(State()) + old(result[16..])
    {
      hide Joined, WordBytes;
      StoreWord(result, 0, a);
      assert result[0..4] == WordBytes(a);
      StoreWord(result, 4, b);
      assert result[0..4] == WordBytes(a);
      StoreWord(result, 8, c);
      assert result[0..4] == WordBytes(a) && result[4..8] == WordBytes(b);
      StoreWord(result, 12, d);
      assert result[0..4] == WordBytes(a) && result[4..8] == WordBytes(b) && result[8..12] == WordBytes(c);
      FourWords(result[..], old(result[16..]));
    }

    lemma FourWords(result: seq<bv8>, tail: seq<bv8>)
      requires |result| >= 16 && result[16..] == tail
      requires result[0..4] == WordBytes(a) && result[4..8] == WordBytes(b)
      requires result[8..12] == WordBytes(c) && result[12..16] == WordBytes(d)
      ensures result == Output(State()) + tail
    {
      hide WordBytes;
      assert result == result[0..4] + result[4..8] + result[8..12] + result[12..16] + result[16..];
    }

    method BytesOfWord(word: Word) returns (b0: bv8, b1: bv8, b2: bv8, b3: bv8)
      ensures WordBytes(word) == [b0, b1, b2, b3]
    {
      var w := word.bits;
      b0, b1 := (w & 0xFF) as bv8, ((w >> 8) & 0xFF) as bv8;
      b2, b3 := ((w >> 16) & 0xFF) as bv8, ((w >> 24) & 0xFF) as bv8;
    }

    method StoreWord(result: array<bv8>, at: nat, word: Word)
      requires at + 4 <= result.Length
      modifies result
      ensures result[at..at + 4] == WordBytes(word)
      ensures forall k :: 0 <= k < result.Length && !(at <= k < at + 4) ==> result[k] == old(result[k])
      ensures word.bits == Joined(result[at], result[at + 1], result[at + 2], result[at + 3])
    {
      hide WordBytes, Joined;
      WordBytesJoined(word);
      result[at], result[at + 1], result[at + 2], result[at + 3] := BytesOfWord(word);
    }

    /** `md5_end`. The context is wiped afterwards. */
    method End(result: array<bv8>, ghost message: seq<bv8>)
      requires Holds(message) && result.Length >= 16 && result != buffer
      modifies this, buffer, result
      ensures result[..] == Digest(message) + old(result[16..])
      ensures lo == hi == 0 && State() == Regs(Word(0), Word(0), Word(0), Word(0)) && buffer[..] == Zeros(64)
    {
      hide Fold;
      Finish(message);
      StoreResult(result);
      lo, hi := 0, 0;
      a, b, c, d := Word(0), Word(0), Word(0), Word(0);
      CopyIn(0, Zeros(64));
    }
  }

  lemma BitCount(hi: nat, lo: nat, n: nat)
    requires lo < TWO_29 && hi < TWO_32 && hi * TWO_29 + lo == n % TWO_61
    ensures 8 * n % TWO_64 == hi * TWO_32 + lo * 8
  {
    assert 8 * n == n / TWO_61 * TWO_64 + (hi * TWO_32 + lo * 8);
  }

  lemma LengthFromCounts(hi: nat, lo: nat, n: nat)
    requires lo < TWO_29 && hi < TWO_32 && hi * TWO_29 + lo == n % TWO_61
    ensures LengthField(n) == LittleEndian(lo * 8 % TWO_32) + LittleEndian(hi)
  {
    hide LittleEndian;
    BitCount(hi, lo, n);
    var bits := 8 * n % TWO_64;
    assert bits / TWO_32 == hi && bits % TWO_32 == lo * 8;
  }

  lemma PaddingLayout(message: seq<bv8>, first: seq<bv8>, last: seq<bv8>)
    requires |last| == 64
    requires var left, n := message[Whole(|message|)..], |message|;
             if n % 64 < 56
             then first == [] && last == left + [0x80] + Zeros(55 - n % 64) + LengthField(n)
             else first == left + [0x80] + Zeros(63 - n % 64) && last == Zeros(56) + LengthField(n)
    ensures message[..Whole(|message|)] + first + last == Padded(message)
  {
    hide LengthField;
    var n := |message|;
    assert message == message[..Whole(n)] + message[Whole(n)..];
    if n % 64 >= 56 {
      assert Zeros(ZeroCount(n)) == Zeros(63 - n % 64) + Zeros(56);
    }
  }

  lemma StaysInBuffer(message: seq<bv8>, input: seq<bv8>)
    requires |message| % 64 + |input| < 64
    ensures var w, all := Whole(|message|), message + input;
            w == Whole(|all|) && all[..w] == message[..w] && all[w..] == message[w..] + input
  {
  }

  lemma LowCarry(lo: nat, size: nat, lo': nat)
    requires lo < TWO_29 && lo' == (lo + size) % TWO_29
    ensures lo + size == (size / TWO_29 + if lo' < lo then 1 else 0) * TWO_29 + lo'
  {
  }

  lemma HighSum(hi: nat, carry: bool, more: nat)
    requires hi < TWO_32
    ensures ((if carry then (hi + 1) % TWO_32 else hi) + more) % TWO_32
            == (hi + (if carry then 1 else 0) + more) % TWO_32
  {
  }

  lemma WholeCount(n: nat, q: nat, hi: nat, lo: nat)
    requires lo < TWO_29 && hi < TWO_32 && n == q * TWO_61 + (hi * TWO_29 + lo)
    ensures hi * TWO_29 + lo == n % TWO_61
  {
  }

  lemma Remainder64(k: nat, lo: nat)
    ensures (64 * k + lo) % 64 == lo % 64
  {
  }

  lemma LowBits(n: nat, hi: nat, lo: nat)
    requires hi * TWO_29 + lo == n % TWO_61
    ensures lo % 64 == n % 64
  {
    var q := n / TWO_61;
    assert n == q * TWO_61 + n % TWO_61;
    Remainder64(q * 0x80_0000_0000_0000 + hi * 0x80_0000, lo);
  }

  /** The carry between the two count words, for additions of any size. */
  lemma CountAdvances(hi: nat, lo: nat, n: nat, size: nat, hi': nat, lo': nat)
    requires lo < TWO_29 && hi < TWO_32 && hi * TWO_29 + lo == n % TWO_61
    requires lo' == (lo + size) % TWO_29
    requires hi' == ((if lo' < lo then (hi + 1) % TWO_32 else hi) + size / TWO_29) % TWO_32
    ensures lo' < TWO_29 && hi' < TWO_32 && hi' * TWO_29 + lo' == (n + size) % TWO_61
    ensures lo % 64 == n % 64
  {
    LowBits(n, hi, lo);
    LowCarry(lo, size, lo');
    HighSum(hi, lo' < lo, size / TWO_29);
    var high := hi + (if lo' < lo then 1 else 0) + size / TWO_29;
    var q, k := n / TWO_61, high / TWO_32;
    assert high == k * TWO_32 + hi';
    assert n + size == (q + k) * TWO_61 + (hi' * TWO_29 + lo');
    WholeCount(n + size, q + k, hi', lo');
  }

  lemma Resume(s: Regs, t: Regs, before: seq<bv8>, data: seq<bv8>, all: seq<bv8>)
    requires |before| % 64 == 0 && |data| % 64 == 0 && |all| % 64 == 0 && all == before + data
    requires s == Fold(INITIAL, before) && t == Fold(s, data)
    ensures t == Fold(INITIAL, all)
  {
    hide Compress, FoldBlocks;
    FoldConcat(Compress, INITIAL, before, data);
  }

  lemma FoldNothing(r: Regs)
    ensures Fold(r, []) == r
  {
  }

  lemma NextBlock(r: Regs, data: seq<bv8>, p: nat)
    requires p + 64 <= |data| && p % 64 == 0
    ensures Fold(r, data[..p + 64]) == Compress(Fold(r, data[..p]), data[p..p + 64])
  {
    hide Compress, FoldBlocks;
    var d := data[..p + 64];
    assert |d| - 64 == p && d[..p] == data[..p] && d[p..] == data[p..p + 64];
    FoldLast(Compress, r, d);
  }

  // ---------------------------------------------------------------------------
  // Whole messages
  // ---------------------------------------------------------------------------

  /** However a message is cut into pieces, empty and huge ones included, hashing the pieces
      one by one gives the digest of the whole. */
  method DigestOfChunks(chunks: seq<seq<bv8>>) returns (digest: seq<bv8>)
    ensures digest == Digest(Concat(chunks))
  {
    hide *;
    var ctx := new Md5Context();
    var result := new bv8[16](_ => 0);
    assert chunks[..0] == [];
    ConcatNothing<bv8>();
    for i := 0 to |chunks|
      invariant fresh(ctx) && fresh(ctx.buffer) && ctx.buffer != result
      invariant ctx.Holds(Concat(chunks[..i]))
    {
      assert chunks[..i + 1] == chunks[..i] + [chunks[i]];
      ConcatSnoc(chunks[..i], chunks[i]);
      ctx.Hash(chunks[i], Concat(chunks[..i]));
    }
    assert chunks[..|chunks|] == chunks;
    ctx.End(result, Concat(chunks));
    digest := result[..];
  }

  /** `md5sum` on a file that could be opened: reads of 256 bytes until nothing is left. */
  method Md5Sum(file: seq<bv8>) returns (digest: seq<bv8>, ret: nat)
    ensures digest == Digest(file) && ret == |file|
  {
    hide *;
    var ctx := new Md5Context();
    var result := new bv8[16](_ => 0);
    ret := 0;
    assert file[..0] == [];
    while true
      invariant fresh(ctx) && fresh(ctx.buffer) && ctx.buffer != result
      invariant ret <= |file| && ctx.Holds(file[..ret])
      decreases |file| - ret
    {
      var len := if |file| - ret < 256 then |file| - ret else 256;
      if len == 0 {
        break;
      }
      assert file[..ret + len] == file[..ret] + file[ret..ret + len];
      ctx.Hash(file[ret..ret + len], file[..ret]);
      ret := ret + len;
    }
    assert file[..ret] == file;
    ctx.End(result, file);
    digest := result[..];
  }
}
