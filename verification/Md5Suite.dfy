/** The third test vector of RFC 1321, section A.5, worked out step by step: the digest of
    "abc" is 900150983cd24fb0d6963f7d28e17f72. */
module Md5Suite {
  import opened Md5
  import opened Md5Spec

  const ABC: seq<bv8> := [0x61, 0x62, 0x63]

  /** The words of the one block: the message, the byte 0x80 and the length of 24 bits. */
  predicate IsBlock(x: seq<Word>) {
    |x| == 16 && x[0] == Word(0x80636261) && x[14] == Word(24)
    && forall n :: 0 <= n < 16 && n != 0 && n != 14 ==> x[n] == Word(0)
  }

  lemma Operations0(x: seq<Word>)
    requires IsBlock(x)
    ensures Operations(Regs(Word(0x67452301), Word(0xefcdab89), Word(0x98badcfe), Word(0x10325476)), x, 0, 4)
            == Regs(Word(0xd6d117b4), Word(0x7ad956f2), Word(0x2f6fbd72), Word(0x344a8432))
  {
    hide Operations, Table, WordIndex, Amount;
    Indices1();
    Table1();
    FourSteps(Regs(Word(0x67452301), Word(0xefcdab89), Word(0x98badcfe), Word(0x10325476)), x, 0,
              Word(0xd6d117b4), Word(0x7ad956f2), Word(0x2f6fbd72), Word(0x344a8432));
  }

  lemma Operations4(x: seq<Word>)
    requires IsBlock(x)
    ensures Operations(Regs(Word(0xd6d117b4), Word(0x7ad956f2), Word(0x2f6fbd72), Word(0x344a8432)), x, 4, 4)
            == Regs(Word(0xc73741ef), Word(0x928d99f6), Word(0x207dc67b), Word(0x8bac3051))
  {
    hide Operations, Table, WordIndex, Amount;
    Indices1();
    Table1();
    FourSteps(Regs(Word(0xd6d117b4), Word(0x7ad956f2), Word(0x2f6fbd72), Word(0x344a8432)), x, 4,
              Word(0xc73741ef), Word(0x928d99f6), Word(0x207dc67b), Word(0x8bac3051));
  }

  lemma Operations8(x: seq<Word>)
    requires IsBlock(x)
    ensures Operations(Regs(Word(0xc73741ef), Word(0x928d99f6), Word(0x207dc67b), Word(0x8bac3051)), x, 8, 4)
            == Regs(Word(0x854b3712), Word(0x5ed49596), Word(0x3020401c), Word(0x74e2f284))
  {
    hide Operations, Table, WordIndex, Amount;
    Indices1();
    Table1Rest();
    FourSteps(Regs(Word(0xc73741ef), Word(0x928d99f6), Word(0x207dc67b), Word(0x8bac3051)), x, 8,
              Word(0x854b3712), Word(0x5ed49596), Word(0x3020401c), Word(0x74e2f284));
  }

  lemma Operations12(x: seq<Word>)
    requires IsBlock(x)
    ensures Operations(Regs(Word(0x854b3712), Word(0x5ed49596), Word(0x3020401c), Word(0x74e2f284)), x, 12, 4)
            == Regs(Word(0xdda9b9a6), Word(0x72aff2e0), Word(0xe396856b), Word(0xa1051895))
  {
    hide Operations, Table, WordIndex, Amount;
    Indices1();
    Table1Rest();
    FourSteps(Regs(Word(0x854b3712), Word(0x5ed49596), Word(0x3020401c), Word(0x74e2f284)), x, 12,
              Word(0xdda9b9a6), Word(0x72aff2e0), Word(0xe396856b), Word(0xa1051895));
  }

  lemma Operations16(x: seq<Word>)
    requires IsBlock(x)
    ensures Operations(Regs(Word(0xdda9b9a6), Word(0x72aff2e0), Word(0xe396856b), Word(0xa1051895)), x, 16, 4)
            == Regs(Word(0x3e9e9126), Word(0xb5b204e4), Word(0xe25e1652), Word(0x4a1d804e))
  {
    hide Operations, Table, WordIndex, Amount;
    Indices2();
    Table2();
    FourSteps(Regs(Word(0xdda9b9a6), Word(0x72aff2e0), Word(0xe396856b), Word(0xa1051895)), x, 16,
              Word(0x3e9e9126), Word(0xb5b204e4), Word(0xe25e1652), Word(0x4a1d804e));
  }

  lemma Operations20(x: seq<Word>)
    requires IsBlock(x)
    ensures Operations(Regs(Word(0x3e9e9126), Word(0xb5b204e4), Word(0xe25e1652), Word(0x4a1d804e)), x, 20, 4)
            == Regs(Word(0x59a8ffda), Word(0x47092c07), Word(0xabfc7920), Word(0x6d002f1e))
  {
    hide Operations, Table, WordIndex, Amount;
    Indices2();
    Table2();
    FourSteps(Regs(Word(0x3e9e9126), Word(0xb5b204e4), Word(0xe25e1652), Word(0x4a1d804e)), x, 20,
              Word(0x59a8ffda), Word(0x47092c07), Word(0xabfc7920), Word(0x6d002f1e));
  }

  lemma Operations24(x: seq<Word>)
    requires IsBlock(x)
    ensures Operations(Regs(Word(0x59a8ffda), Word(0x47092c07), Word(0xabfc7920), Word(0x6d002f1e)), x, 24, 4)
            == Regs(Word(0xb7f268cf), Word(0x786acb8f), Word(0xfe1623b1), Word(0x09388eff))
  {
    hide Operations, Table, WordIndex, Amount;
    Indices2();
    Table2Rest();
    FourSteps(Regs(Word(0x59a8ffda), Word(0x47092c07), Word(0xabfc7920), Word(0x6d002f1e)), x, 24,
              Word(0xb7f268cf), Word(0x786acb8f), Word(0xfe1623b1), Word(0x09388eff));
  }

  lemma Operations28(x: seq<Word>)
    requires IsBlock(x)
    ensures Operations(Regs(Word(0xb7f268cf), Word(0x786acb8f), Word(0xfe1623b1), Word(0x09388eff)), x, 28, 4)
            == Regs(Word(0x790a77fb), Word(0x726342d3), Word(0xa62884aa), Word(0x9f47e4f8))
  {
    hide Operations, Table, WordIndex, Amount;
    Indices2();
    Table2Rest();
    FourSteps(Regs(Word(0xb7f268cf), Word(0x786acb8f), Word(0xfe1623b1), Word(0x09388eff)), x, 28,
              Word(0x790a77fb), Word(0x726342d3), Word(0xa62884aa), Word(0x9f47e4f8));
  }

  lemma Operations32(x: seq<Word>)
    requires IsBlock(x)
    ensures Operations(Regs(Word(0x790a77fb), Word(0x726342d3), Word(0xa62884aa), Word(0x9f47e4f8)), x, 32, 4)
            == Regs(Word(0xb3707ebf), Word(0x3b0875c7), Word(0x8d212ff5), Word(0x60127b2e))
  {
    hide Operations, Table, WordIndex, Amount;
    Indices3();
    Table3();
    FourSteps(Regs(Word(0x790a77fb), Word(0x726342d3), Word(0xa62884aa), Word(0x9f47e4f8)), x, 32,
              Word(0xb3707ebf), Word(0x3b0875c7), Word(0x8d212ff5), Word(0x60127b2e));
  }

  lemma Operations36(x: seq<Word>)
    requires IsBlock(x)
    ensures Operations(Regs(Word(0xb3707ebf), Word(0x3b0875c7), Word(0x8d212ff5), Word(0x60127b2e)), x, 36, 4)
            == Regs(Word(0x21b117b9), Word(0x5a2f5ea5), Word(0x3575227e), Word(0x6e7429d5))
  {
    hide Operations, Table, WordIndex, Amount;
    Indices3();
    Table3();
    FourSteps(Regs(Word(0xb3707ebf), Word(0x3b0875c7), Word(0x8d212ff5), Word(0x60127b2e)), x, 36,
              Word(0x21b117b9), Word(0x5a2f5ea5), Word(0x3575227e), Word(0x6e7429d5));
  }

  lemma Operations40(x: seq<Word>)
    requires IsBlock(x)
    ensures Operations(Regs(Word(0x21b117b9), Word(0x5a2f5ea5), Word(0x3575227e), Word(0x6e7429d5)), x, 40, 4)
            == Regs(Word(0x11de1779), Word(0x4c6124f4), Word(0x31c465ca), Word(0xfadcaa38))
  {
    hide Operations, Table, WordIndex, Amount;
    Indices3();
    Table3Rest();
    FourSteps(Regs(Word(0x21b117b9), Word(0x5a2f5ea5), Word(0x3575227e), Word(0x6e7429d5)), x, 40,
              Word(0x11de1779), Word(0x4c6124f4), Word(0x31c465ca), Word(0xfadcaa38));
  }

  lemma Operations44(x: seq<Word>)
    requires IsBlock(x)
    ensures Operations(Regs(Word(0x11de1779), Word(0x4c6124f4), Word(0x31c465ca), Word(0xfadcaa38)), x, 44, 4)
            == Regs(Word(0x7f2e507b), Word(0x7beb9700), Word(0x8fae6399), Word(0x99d9679d))
  {
    hide Operations, Table, WordIndex, Amount;
    Indices3();
    Table3Rest();
    FourSteps(Regs(Word(0x11de1779), Word(0x4c6124f4), Word(0x31c465ca), Word(0xfadcaa38)), x, 44,
              Word(0x7f2e507b), Word(0x7beb9700), Word(0x8fae6399), Word(0x99d9679d));
  }

  lemma Operations48(x: seq<Word>)
    requires IsBlock(x)
    ensures Operations(Regs(Word(0x7f2e507b), Word(0x7beb9700), Word(0x8fae6399), Word(0x99d9679d)), x, 48, 4)
            == Regs(Word(0x7b201df8), Word(0x8bf025c4), Word(0xb298cefd), Word(0xf4e8e96e))
  {
    hide Operations, Table, WordIndex, Amount;
    Indices4();
    Table4();
    FourSteps(Regs(Word(0x7f2e507b), Word(0x7beb9700), Word(0x8fae6399), Word(0x99d9679d)), x, 48,
              Word(0x7b201df8), Word(0x8bf025c4), Word(0xb298cefd), Word(0xf4e8e96e));
  }

  lemma Operations52(x: seq<Word>)
    requires IsBlock(x)
    ensures Operations(Regs(Word(0x7b201df8), Word(0x8bf025c4), Word(0xb298cefd), Word(0xf4e8e96e)), x, 52, 4)
            == Regs(Word(0x06cc5e8a), Word(0x3bfa2c27), Word(0x7d632dd0), Word(0x5b0d97aa))
  {
    hide Operations, Table, WordIndex, Amount;
    Indices4();
    Table4();
    FourSteps(Regs(Word(0x7b201df8), Word(0x8bf025c4), Word(0xb298cefd), Word(0xf4e8e96e)), x, 52,
              Word(0x06cc5e8a), Word(0x3bfa2c27), Word(0x7d632dd0), Word(0x5b0d97aa));
  }

  lemma Operations56(x: seq<Word>)
    requires IsBlock(x)
    ensures Operations(Regs(Word(0x06cc5e8a), Word(0x3bfa2c27), Word(0x7d632dd0), Word(0x5b0d97aa)), x, 56, 4)
            == Regs(Word(0x7f81cc35), Word(0x7327d604), Word(0x4f9dbe3f), Word(0x094454ab))
  {
    hide Operations, Table, WordIndex, Amount;
    Indices4();
    Table4Rest();
    FourSteps(Regs(Word(0x06cc5e8a), Word(0x3bfa2c27), Word(0x7d632dd0), Word(0x5b0d97aa)), x, 56,
              Word(0x7f81cc35), Word(0x7327d604), Word(0x4f9dbe3f), Word(0x094454ab));
  }

  lemma Operations60(x: seq<Word>)
    requires IsBlock(x)
    ensures Operations(Regs(Word(0x7f81cc35), Word(0x7327d604), Word(0x4f9dbe3f), Word(0x094454ab)), x, 60, 4)
            == Regs(Word(0x310ade8f), Word(0xc08226b3), Word(0xe484b9d8), Word(0x624d8cb2))
  {
    hide Operations, Table, WordIndex, Amount;
    Indices4();
    Table4Rest();
    FourSteps(Regs(Word(0x7f81cc35), Word(0x7327d604), Word(0x4f9dbe3f), Word(0x094454ab)), x, 60,
              Word(0x310ade8f), Word(0xc08226b3), Word(0xe484b9d8), Word(0x624d8cb2));
  }

  lemma Round1Of(x: seq<Word>)
    requires IsBlock(x)
    ensures Operations(Regs(Word(0x67452301), Word(0xefcdab89), Word(0x98badcfe), Word(0x10325476)), x, 0, 16)
            == Regs(Word(0xdda9b9a6), Word(0x72aff2e0), Word(0xe396856b), Word(0xa1051895))
  {
    hide Operations;
    Operations0(x);
    Operations4(x);
    Operations8(x);
    Operations12(x);
    FourTimesFour(Regs(Word(0x67452301), Word(0xefcdab89), Word(0x98badcfe), Word(0x10325476)),
                  Regs(Word(0xd6d117b4), Word(0x7ad956f2), Word(0x2f6fbd72), Word(0x344a8432)),
                  Regs(Word(0xc73741ef), Word(0x928d99f6), Word(0x207dc67b), Word(0x8bac3051)),
                  Regs(Word(0x854b3712), Word(0x5ed49596), Word(0x3020401c), Word(0x74e2f284)),
                  Regs(Word(0xdda9b9a6), Word(0x72aff2e0), Word(0xe396856b), Word(0xa1051895)),
                  x, 0, 4, 8, 12);
  }

  lemma Round2Of(x: seq<Word>)
    requires IsBlock(x)
    ensures Operations(Regs(Word(0xdda9b9a6), Word(0x72aff2e0), Word(0xe396856b), Word(0xa1051895)), x, 16, 16)
            == Regs(Word(0x790a77fb), Word(0x726342d3), Word(0xa62884aa), Word(0x9f47e4f8))
  {
    hide Operations;
    Operations16(x);
    Operations20(x);
    Operations24(x);
    Operations28(x);
    FourTimesFour(Regs(Word(0xdda9b9a6), Word(0x72aff2e0), Word(0xe396856b), Word(0xa1051895)),
                  Regs(Word(0x3e9e9126), Word(0xb5b204e4), Word(0xe25e1652), Word(0x4a1d804e)),
                  Regs(Word(0x59a8ffda), Word(0x47092c07), Word(0xabfc7920), Word(0x6d002f1e)),
                  Regs(Word(0xb7f268cf), Word(0x786acb8f), Word(0xfe1623b1), Word(0x09388eff)),
                  Regs(Word(0x790a77fb), Word(0x726342d3), Word(0xa62884aa), Word(0x9f47e4f8)),
                  x, 16, 20, 24, 28);
  }

  lemma Round3Of(x: seq<Word>)
    requires IsBlock(x)
    ensures Operations(Regs(Word(0x790a77fb), Word(0x726342d3), Word(0xa62884aa), Word(0x9f47e4f8)), x, 32, 16)
            == Regs(Word(0x7f2e507b), Word(0x7beb9700), Word(0x8fae6399), Word(0x99d9679d))
  {
    hide Operations;
    Operations32(x);
    Operations36(x);
    Operations40(x);
    Operations44(x);
    FourTimesFour(Regs(Word(0x790a77fb), Word(0x726342d3), Word(0xa62884aa), Word(0x9f47e4f8)),
                  Regs(Word(0xb3707ebf), Word(0x3b0875c7), Word(0x8d212ff5), Word(0x60127b2e)),
                  Regs(Word(0x21b117b9), Word(0x5a2f5ea5), Word(0x3575227e), Word(0x6e7429d5)),
                  Regs(Word(0x11de1779), Word(0x4c6124f4), Word(0x31c465ca), Word(0xfadcaa38)),
                  Regs(Word(0x7f2e507b), Word(0x7beb9700), Word(0x8fae6399), Word(0x99d9679d)),
                  x, 32, 36, 40, 44);
  }

  lemma Round4Of(x: seq<Word>)
    requires IsBlock(x)
    ensures Operations(Regs(Word(0x7f2e507b), Word(0x7beb9700), Word(0x8fae6399), Word(0x99d9679d)), x, 48, 16)
            == Regs(Word(0x310ade8f), Word(0xc08226b3), Word(0xe484b9d8), Word(0x624d8cb2))
  {
    hide Operations;
    Operations48(x);
    Operations52(x);
    Operations56(x);
    Operations60(x);
    FourTimesFour(Regs(Word(0x7f2e507b), Word(0x7beb9700), Word(0x8fae6399), Word(0x99d9679d)),
                  Regs(Word(0x7b201df8), Word(0x8bf025c4), Word(0xb298cefd), Word(0xf4e8e96e)),
                  Regs(Word(0x06cc5e8a), Word(0x3bfa2c27), Word(0x7d632dd0), Word(0x5b0d97aa)),
                  Regs(Word(0x7f81cc35), Word(0x7327d604), Word(0x4f9dbe3f), Word(0x094454ab)),
                  Regs(Word(0x310ade8f), Word(0xc08226b3), Word(0xe484b9d8), Word(0x624d8cb2)),
                  x, 48, 52, 56, 60);
  }

  lemma RoundsOf(x: seq<Word>)
    requires IsBlock(x)
    ensures Operations(INITIAL, x, 0, 64)
            == Regs(Word(0x310ade8f), Word(0xc08226b3), Word(0xe484b9d8), Word(0x624d8cb2))
  {
    hide Operations;
    Round1Of(x);
    Round2Of(x);
    Round3Of(x);
    Round4Of(x);
    FourRounds(INITIAL, x);
  }

  lemma SumsOf()
    ensures Add(Word(0x310ade8f), INITIAL.a) == Word(0x98500190) && Add(Word(0xc08226b3), INITIAL.b) == Word(0xb04fd23c)
    ensures Add(Word(0xe484b9d8), INITIAL.c) == Word(0x7d3f96d6) && Add(Word(0x624d8cb2), INITIAL.d) == Word(0x727fe128)
  {
  }

  lemma BytesOf()
    ensures WordBytes(Word(0x98500190)) == [0x90, 0x01, 0x50, 0x98]
    ensures WordBytes(Word(0xb04fd23c)) == [0x3c, 0xd2, 0x4f, 0xb0]
    ensures WordBytes(Word(0x7d3f96d6)) == [0xd6, 0x96, 0x3f, 0x7d]
    ensures WordBytes(Word(0x727fe128)) == [0x28, 0xe1, 0x7f, 0x72]
  {
  }

  lemma PaddedAbc()
    ensures |Padded(ABC)| == 64 && Padded(ABC)[..4] == [0x61, 0x62, 0x63, 0x80] && Padded(ABC)[56] == 24
    ensures forall n :: 4 <= n < 64 && n != 56 ==> Padded(ABC)[n] == 0
  {
    LengthOfAbc();
    hide LengthField;
    assert Zeros(ZeroCount(3)) == Zeros(52);
  }

  lemma LengthOfAbc()
    ensures LengthField(3) == [24, 0, 0, 0, 0, 0, 0, 0]
  {
    hide LowByte;
    LowBytes();
    assert LittleEndian(24) == [24, 0, 0, 0] && LittleEndian(0) == [0, 0, 0, 0];
  }

  lemma LowBytes()
    ensures LowByte(24) == 24 && LowByte(0) == 0
  {
  }

  lemma WordsOfAbc()
    ensures IsBlock(Words(Padded(ABC)))
  {
    hide Padded;
    PaddedAbc();
    var block := Padded(ABC);
    assert block[0] == 0x61 && block[1] == 0x62 && block[2] == 0x63 && block[3] == 0x80;
    forall n | 0 <= n < 16 && n != 0 && n != 14 ensures WordAt(block, n) == Word(0) {
      assert block[4 * n] == 0 && block[4 * n + 1] == 0 && block[4 * n + 2] == 0 && block[4 * n + 3] == 0;
    }
  }

  /** MD5 ("abc") = 900150983cd24fb0d6963f7d28e17f72 */
  lemma DigestOfAbc()
    ensures Digest([0x61, 0x62, 0x63])
            == [0x90, 0x01, 0x50, 0x98, 0x3c, 0xd2, 0x4f, 0xb0,
                0xd6, 0x96, 0x3f, 0x7d, 0x28, 0xe1, 0x7f, 0x72]
  {
    hide Padded, Operations, Words, WordBytes, FoldBlocks, Add;
    var block := Padded(ABC);
    PaddedAbc();
    WordsOfAbc();
    RoundsOf(Words(block));
    SumsOf();
    BytesOf();
    FoldNothing(INITIAL);
    assert block[..0] == [] && block[0..64] == block && block[..64] == block;
    NextBlock(INITIAL, block, 0);
  }
}
