/** Check values: the CRC-16 of "123456789" and what frames look like byte for byte. */
module FrameSuite {
  import opened Crc16
  import opened HdlcFrame

  // ---------------------------------------------------------------------------
  // The check sequence
  // ---------------------------------------------------------------------------

  lemma OneByte(message: seq<bv8>, x: bv8, longer: seq<bv8>, y: bv16, r: bv16, next: bv16)
    requires Register(SEED, Bits(message)) == r && longer == message + [x]
    requires y == x as bv16 && ShiftOut8(Xor(r, y)) == next
    ensures Register(SEED, Bits(longer)) == next
  {
    hide *;
    RegisterSnoc(SEED, message, x);
    ByteThroughRegister(r, x);
  }

  lemma NoBytes()
    ensures Register(0xFFFF, Bits([])) == 0xFFFF
  {
  }

  lemma Registers()
    ensures ShiftOut8(Xor(0xffff, 0x31)) == 0x2f8d
    ensures ShiftOut8(Xor(0x2f8d, 0x32)) == 0x4d53
    ensures ShiftOut8(Xor(0x4d53, 0x33)) == 0x634b
    ensures ShiftOut8(Xor(0x634b, 0x34)) == 0x8b13
    ensures ShiftOut8(Xor(0x8b13, 0x35)) == 0x44bf
    ensures ShiftOut8(Xor(0x44bf, 0x36)) == 0x198d
    ensures ShiftOut8(Xor(0x198d, 0x37)) == 0x1ac8
    ensures ShiftOut8(Xor(0x1ac8, 0x38)) == 0xf795
    ensures ShiftOut8(Xor(0xf795, 0x39)) == 0x6f91
  {
  }

  /** The check value of this CRC: 0x906E, sent low byte first. */
  lemma CheckValue()
    ensures Crc([0x31, 0x32, 0x33, 0x34, 0x35, 0x36, 0x37, 0x38, 0x39]) == 0x906E
    ensures CrcBytes(0x906E) == [0x6E, 0x90]
  {
    NoBytes();
    Registers();
    hide Register, Bits, ShiftOut8, Xor;
    OneByte([], 0x31, [0x31], 0x31, 0xffff, 0x2f8d);
    OneByte([0x31], 0x32, [0x31, 0x32], 0x32, 0x2f8d, 0x4d53);
    OneByte([0x31, 0x32], 0x33, [0x31, 0x32, 0x33], 0x33, 0x4d53, 0x634b);
    OneByte([0x31, 0x32, 0x33], 0x34, [0x31, 0x32, 0x33, 0x34], 0x34, 0x634b, 0x8b13);
    OneByte([0x31, 0x32, 0x33, 0x34], 0x35, [0x31, 0x32, 0x33, 0x34, 0x35], 0x35, 0x8b13, 0x44bf);
    OneByte([0x31, 0x32, 0x33, 0x34, 0x35], 0x36, [0x31, 0x32, 0x33, 0x34, 0x35, 0x36], 0x36, 0x44bf, 0x198d);
    OneByte([0x31, 0x32, 0x33, 0x34, 0x35, 0x36], 0x37,
            [0x31, 0x32, 0x33, 0x34, 0x35, 0x36, 0x37], 0x37, 0x198d, 0x1ac8);
    OneByte([0x31, 0x32, 0x33, 0x34, 0x35, 0x36, 0x37], 0x38,
            [0x31, 0x32, 0x33, 0x34, 0x35, 0x36, 0x37, 0x38], 0x38, 0x1ac8, 0xf795);
    OneByte([0x31, 0x32, 0x33, 0x34, 0x35, 0x36, 0x37, 0x38], 0x39,
            [0x31, 0x32, 0x33, 0x34, 0x35, 0x36, 0x37, 0x38, 0x39], 0x39, 0xf795, 0x6f91);
  }

  // ---------------------------------------------------------------------------
  // Frames
  // ---------------------------------------------------------------------------

  /** The flag 0x7E and the escape 0x7D are sent as an escape and the byte with bit 5 inverted. */
  lemma EscapesAre(b: bv8)
    ensures EscapeByte(0x7E) == [0x7D, 0x5E] && EscapeByte(0x7D) == [0x7D, 0x5D]
    ensures b != 0x7E && b != 0x7D ==> EscapeByte(b) == [b]
  {
  }

  lemma {:induction false} PlainEscape(s: seq<bv8>)
    requires 0x7E !in s && 0x7D !in s
    ensures Escape(s) == s
  {
    if s != [] {
      assert s[0] in s && forall x :: x in s[1..] ==> x in s;
      PlainEscape(s[1..]);
    }
  }

  /** A payload without these two bytes goes out as it is, between flags, of which the leading
      one may be left out. */
  lemma PlainFrame(payload: seq<bv8>)
    requires 0x7E !in payload && 0x7D !in payload
    ensures Frame(payload, true) == [0x7E] + payload + [0x7E] && Frame(payload, false) == payload + [0x7E]
  {
    PlainEscape(payload);
  }

  /** The frame of the packet "123456789" with its check sequence. */
  lemma CheckValueFramed()
    ensures var packet: seq<bv8> := [0x31, 0x32, 0x33, 0x34, 0x35, 0x36, 0x37, 0x38, 0x39];
            Frame(packet + CrcBytes(Crc(packet)), true)
            == [0x7E, 0x31, 0x32, 0x33, 0x34, 0x35, 0x36, 0x37, 0x38, 0x39, 0x6E, 0x90, 0x7E]
  {
    hide Crc, CrcBytes, Frame;
    CheckValue();
    var packet: seq<bv8> := [0x31, 0x32, 0x33, 0x34, 0x35, 0x36, 0x37, 0x38, 0x39];
    assert packet + [0x6E, 0x90] == [0x31, 0x32, 0x33, 0x34, 0x35, 0x36, 0x37, 0x38, 0x39, 0x6E, 0x90];
    PlainFrame([0x31, 0x32, 0x33, 0x34, 0x35, 0x36, 0x37, 0x38, 0x39, 0x6E, 0x90]);
  }

  /** The frame of a packet of a flag, an escape and a letter. */
  lemma EscapesFramed()
    ensures Frame([0x7E, 0x7D, 0x41], true) == [0x7E, 0x7D, 0x5E, 0x7D, 0x5D, 0x41, 0x7E]
  {
    var s: seq<bv8> := [0x7E, 0x7D, 0x41];
    EscapesAre(0x41);
    hide EscapeByte;
    assert s[1..] == [0x7D, 0x41] && s[1..][1..] == [0x41] && [0x41 as bv8][1..] == [];
    assert Escape([0x41]) == [0x41];
    assert Escape([0x7D, 0x41]) == [0x7D, 0x5D] + [0x41];
    assert Escape(s) == [0x7D, 0x5E] + Escape([0x7D, 0x41]);
  }

  /** And what is left of it, with two leading flags: its escapes undone, its last flag kept. */
  lemma EscapesDecoded()
    ensures Decode([0x7E, 0x7E, 0x7D, 0x5E, 0x7D, 0x5D, 0x41, 0x7E]) == [0x7E, 0x7D, 0x41, 0x7E]
  {
    var s: seq<bv8> := [0x7E, 0x7D, 0x41];
    EscapesFramed();
    hide Frame;
    FrameRoundTrip(s, true);
    var frame := Frame(s, true);
    assert ([0x7E] + frame)[1..] == frame && [0x7E] + frame == [0x7E, 0x7E, 0x7D, 0x5E, 0x7D, 0x5D, 0x41, 0x7E];
  }
}
