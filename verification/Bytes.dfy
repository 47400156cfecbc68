/** Bytes as small integers, and the little-endian words made of them. */
module Bytes {

  type byte = x: int | 0 <= x < 256

  const TWO_16 := 0x1_0000
  const TWO_32 := 0x1_0000_0000

  function Le16(v: nat): (bytes: seq<byte>)
    requires v < TWO_16
    ensures |bytes| == 2
  {
    [v % 256, v / 256]
  }

  function FromLe16(b: seq<byte>): (v: nat)
    requires |b| == 2
    ensures v < TWO_16
  {
    var b0: int, b1: int := b[0], b[1];
    b0 + b1 * 0x100
  }

  function Le32(v: nat): (bytes: seq<byte>)
    requires v < TWO_32
    ensures |bytes| == 4
  {
    [v % 256, v / 0x100 % 256, v / 0x1_0000 % 256, v / 0x100_0000]
  }

  function FromLe32(b: seq<byte>): (v: nat)
    requires |b| == 4
    ensures v < TWO_32
  {
    var b0: int, b1: int, b2: int, b3: int := b[0], b[1], b[2], b[3];
    b0 + b1 * 0x100 + b2 * 0x1_0000 + b3 * 0x100_0000
  }

  lemma Le16RoundTrip(v: nat)
    requires v < TWO_16
    ensures FromLe16(Le16(v)) == v
  {
  }

  lemma Le32RoundTrip(v: nat)
    requires v < TWO_32
    ensures FromLe32(Le32(v)) == v
  {
    var q := v / 0x100;
    var r := q / 0x100;
    assert v / 0x1_0000 == r && v / 0x100_0000 == r / 0x100;
    assert v == q * 0x100 + v % 256 && q == r * 0x100 + q % 256;
  }

  /** Low byte first, in both directions. */
  lemma LittleEndian16(b0: byte, b1: byte)
    ensures var v := 0x100 * b1 + b0; v < TWO_16 && Le16(v) == [b0, b1] && FromLe16([b0, b1]) == v
  {
  }

  lemma LittleEndian32(b0: byte, b1: byte, b2: byte, b3: byte)
    ensures var v := 0x100_0000 * b3 + 0x1_0000 * b2 + 0x100 * b1 + b0;
            v < TWO_32 && Le32(v) == [b0, b1, b2, b3] && FromLe32([b0, b1, b2, b3]) == v
  {
    var r: int := 0x100 * b3 + b2;
    var q: int := 0x100 * r + b1;
    var v: int := 0x100 * q + b0;
    OneByteOff(q, b0);
    OneByteOff(r, b1);
    OneByteOff(b3, b2);
    assert v / 0x1_0000 == v / 0x100 / 0x100 && v / 0x100_0000 == v / 0x1_0000 / 0x100;
  }

  lemma OneByteOff(q: int, b: byte)
    requires q >= 0
    ensures (0x100 * q + b) / 0x100 == q && (0x100 * q + b) % 0x100 == b
  {
  }
}
