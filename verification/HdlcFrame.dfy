/** Frames of the streaming download protocol: `compose_packet`, `compute_reply_crc`,
    `send_packet` and the in-place decoder `remove_escape_hdlc_flag`.

    A frame is the packet with its two check bytes, escaped as in RFC 1662, section 4.2,
    between flag bytes. The decoder drops the leading flags and undoes the escaping, but
    it leaves the closing flag in its result. */
module HdlcFrame {
  import opened Crc16

  const FLAG: bv8 := 0x7E
  const ESCAPE: bv8 := 0x7D
  const MAX_BUFFER_SIZE := 1280

  function EscapeByte(b: bv8): seq<bv8> {
    if b == FLAG || b == ESCAPE then [ESCAPE, 0x20 ^ b] else [b]
  }

  function Escape(s: seq<bv8>): seq<bv8> {
    FlatMap(EscapeByte, s)
  }

  function Frame(payload: seq<bv8>, leadingFlag: bool): seq<bv8> {
    (if leadingFlag then [FLAG] else []) + Escape(payload) + [FLAG]
  }

  function StripFlags(s: seq<bv8>): seq<bv8> {
    if s != [] && s[0] == FLAG then StripFlags(s[1..]) else s
  }

  /** What a byte stream stands for; `escaped` says that an escape byte has just been read. */
  function Unescape(s: seq<bv8>, escaped: bool): seq<bv8>
    decreases s
  {
    if s == [] then []
    else if s[0] == ESCAPE then Unescape(s[1..], true)
    else [if escaped then s[0] ^ 0x20 else s[0]] + Unescape(s[1..], false)
  }

  /** Whether the stream ends right after an escape byte. */
  predicate EndsEscaped(s: seq<bv8>, escaped: bool) {
    if s == [] then escaped else s[|s| - 1] == ESCAPE
  }

  function Decode(s: seq<bv8>): seq<bv8> {
    Unescape(StripFlags(s), false)
  }

  // ---------------------------------------------------------------------------
  // Escaping and its inverse
  // ---------------------------------------------------------------------------

  lemma {:induction false} UnescapeConcat(a: seq<bv8>, b: seq<bv8>, escaped: bool)
    ensures Unescape(a + b, escaped) == Unescape(a, escaped) + Unescape(b, EndsEscaped(a, escaped))
    decreases a
  {
    if a == [] {
      assert a + b == b;
    } else {
      assert (a + b)[1..] == a[1..] + b;
      UnescapeConcat(a[1..], b, a[0] == ESCAPE);
    }
  }

  lemma UnescapeByte(b: bv8)
    ensures Unescape(EscapeByte(b), false) == [b]
    ensures !EndsEscaped(EscapeByte(b), false)
    ensures FLAG !in EscapeByte(b)
  {
    if b == FLAG || b == ESCAPE {
      var c := 0x20 ^ b;
      assert c != ESCAPE && c ^ 0x20 == b;
      assert [ESCAPE, c][1..] == [c];
      assert Unescape([c], true) == [b] + Unescape([], false);
    }
  }

  lemma {:induction false} UnescapeUndoesEscape(s: seq<bv8>)
    ensures Unescape(Escape(s), false) == s
    ensures !EndsEscaped(Escape(s), false)
    ensures FLAG !in Escape(s)
  {
    if s != [] {
      UnescapeByte(s[0]);
      UnescapeUndoesEscape(s[1..]);
      UnescapeConcat(EscapeByte(s[0]), Escape(s[1..]), false);
    }
  }

  /** Between its flags a frame holds no flag byte, so the receiver finds its end; and
      decoding gives back the payload with the closing flag still on it. */
  lemma FrameRoundTrip(payload: seq<bv8>, leadingFlag: bool)
    requires payload != []
    ensures Decode(Frame(payload, leadingFlag)) == payload + [FLAG]
    ensures forall k :: (if leadingFlag then 1 else 0) <= k < |Frame(payload, leadingFlag)| - 1
              ==> Frame(payload, leadingFlag)[k] != FLAG
  {
    var body := Escape(payload);
    UnescapeUndoesEscape(payload);
    UnescapeConcat(body, [FLAG], false);
    assert body == EscapeByte(payload[0]) + Escape(payload[1..]);
    assert body[0] in body;
    assert StripFlags(body + [FLAG]) == body + [FLAG];
    if leadingFlag {
      assert Frame(payload, true)[1..] == body + [FLAG];
    } else {
      assert Frame(payload, false) == body + [FLAG];
    }
  }

  /** Two payloads never share a frame. */
  lemma FrameInjective(p: seq<bv8>, q: seq<bv8>, leadingFlag: bool)
    requires p != [] && q != [] && Frame(p, leadingFlag) == Frame(q, leadingFlag)
    ensures p == q
  {
    FrameRoundTrip(p, leadingFlag);
    FrameRoundTrip(q, leadingFlag);
    assert (p + [FLAG])[..|p|] == p && (q + [FLAG])[..|q|] == q;
  }

  // ---------------------------------------------------------------------------
  // The transmit side
  // ---------------------------------------------------------------------------

  class Transmitter {
    const transmitBuffer: array<bv8>
    const streamBuffer: array<bv8>
    var transmitLength: nat

    ghost predicate Valid()
      reads this
    {
      && transmitBuffer != streamBuffer
      && transmitBuffer.Length == streamBuffer.Length == MAX_BUFFER_SIZE
      && transmitLength <= MAX_BUFFER_SIZE
    }

    ghost function Packet(): seq<bv8>
      requires Valid()
      reads this, transmitBuffer
    {
      transmitBuffer[..transmitLength]
    }

    constructor ()
      ensures Valid() && Packet() == [] && fresh(transmitBuffer) && fresh(streamBuffer)
    {
      transmitBuffer := new bv8[MAX_BUFFER_SIZE](_ => 0);
      streamBuffer := new bv8[MAX_BUFFER_SIZE](_ => 0);
      transmitLength := 0;
    }

    /** A missing parameter or data block counts as an empty one. */
    method ComposePacket(cmd: bv8, parameter: seq<bv8>, data: seq<bv8>)
      requires Valid() && 1 + |parameter| + |data| < MAX_BUFFER_SIZE
      modifies this, transmitBuffer
      ensures Valid() && Packet() == [cmd] + parameter + data
      ensures transmitBuffer[transmitLength] == 0
    {
      transmitBuffer[0] := cmd;
      for i := 0 to |parameter|
        invariant transmitBuffer[..1 + i] == [cmd] + parameter[..i]
      {
        transmitBuffer[1 + i] := parameter[i];
        assert [cmd] + parameter[..i + 1] == [cmd] + parameter[..i] + [parameter[i]];
      }
      for i := 0 to |data|
        invariant transmitBuffer[..1 + |parameter| + i] == [cmd] + parameter + data[..i]
      {
        transmitBuffer[1 + |parameter| + i] := data[i];
        assert [cmd] + parameter + data[..i + 1] == [cmd] + parameter + data[..i] + [data[i]];
      }
      transmitLength := 1 + |parameter| + |data|;
      transmitBuffer[transmitLength] := 0;
    }

    method AppendTwo(x: bv8, y: bv8)
      requires Valid() && transmitLength + 2 <= MAX_BUFFER_SIZE
      modifies this, transmitBuffer
      ensures Valid() && Packet() == old(Packet()) + [x, y]
    {
      transmitBuffer[transmitLength] := x;
      transmitBuffer[transmitLength + 1] := y;
      transmitLength := transmitLength + 2;
    }

    /** The low byte of the check sequence goes first. */
    method ComputeReplyCrc()
      requires Valid() && transmitLength + 2 <= MAX_BUFFER_SIZE
      modifies this, transmitBuffer
      ensures Valid() && Packet() == old(Packet()) + CrcBytes(Crc(old(Packet())))
    {
      hide Crc;
      var crc := Crc16LCalc(transmitBuffer[..], transmitLength * 8);
      assert transmitBuffer[..][..transmitLength] == Packet();
      AppendTwo((crc & 0xFF) as bv8, (crc >> 8) as bv8);
    }

    /** One byte of the packet, escaped where necessary, goes to position `at`. */
    method TransmitEscaped(ch: bv8, at: nat) returns (j: nat)
      requires at + |EscapeByte(ch)| <= streamBuffer.Length
      modifies streamBuffer
      ensures j == at + |EscapeByte(ch)|
      ensures streamBuffer[..j] == old(streamBuffer[..at]) + EscapeByte(ch)
    {
      j := at;
      if ch == FLAG || ch == ESCAPE {
        streamBuffer[j] := ESCAPE;
        j := j + 1;
        streamBuffer[j] := 0x20 ^ ch;
        j := j + 1;
      } else {
        streamBuffer[j] := ch;
        j := j + 1;
      }
    }

    /** The bytes handed to the USB port. */
    method SendPacket(flag: bool) returns (written: seq<bv8>)
      requires Valid() && |Frame(Packet(), flag)| <= MAX_BUFFER_SIZE
      modifies streamBuffer
      ensures written == Frame(Packet(), flag)
    {
      hide EscapeByte, Escape;
      EscapeNothing();
      var j := 0;
      if flag {
        streamBuffer[j] := FLAG;
        j := j + 1;
      }
      ghost var packet := Packet();
      ghost var head := if flag then [FLAG] else [];
      for i := 0 to transmitLength
        invariant transmitBuffer[..transmitLength] == packet
        invariant j == |head| + |Escape(packet[..i])| <= |head| + |Escape(packet)|
        invariant streamBuffer[..j] == head + Escape(packet[..i])
      {
        var ch := transmitBuffer[i];
        EscapeSnoc(packet, i);
        PrefixFits(packet, i + 1);
        j := TransmitEscaped(ch, j);
      }
      assert packet[..transmitLength] == packet;
      streamBuffer[j] := FLAG;
      j := j + 1;
      written := streamBuffer[..j];
    }
  }

  lemma EscapeNothing()
    ensures Escape([]) == []
  {
  }

  lemma EscapeSnoc(s: seq<bv8>, i: nat)
    requires i < |s|
    ensures Escape(s[..i + 1]) == Escape(s[..i]) + EscapeByte(s[i])
  {
    assert s[..i + 1] == s[..i] + [s[i]];
    FlatMapConcat(EscapeByte, s[..i], [s[i]]);
    assert Escape([s[i]]) == EscapeByte(s[i]) + Escape([]);
  }

  lemma PrefixFits(s: seq<bv8>, i: nat)
    requires i <= |s|
    ensures |Escape(s[..i])| <= |Escape(s)|
  {
    assert s == s[..i] + s[i..];
    FlatMapConcat(EscapeByte, s[..i], s[i..]);
  }

  // ---------------------------------------------------------------------------
  // The receive side
  // ---------------------------------------------------------------------------

  lemma {:induction false} StripFlagsFrom(s: seq<bv8>, i: nat)
    requires i <= |s| && forall k :: 0 <= k < i ==> s[k] == FLAG
    ensures StripFlags(s) == StripFlags(s[i..])
  {
    if i > 0 {
      StripFlagsFrom(s[1..], i - 1);
      assert s[1..][i - 1..] == s[i..];
    }
  }

  lemma UnescapeSnoc(s: seq<bv8>, i: nat)
    requires i < |s|
    ensures EndsEscaped(s[..i + 1], false) == (s[i] == ESCAPE)
    ensures Unescape(s[..i + 1], false)
            == Unescape(s[..i], false)
               + if s[i] == ESCAPE then []
                 else [if EndsEscaped(s[..i], false) then s[i] ^ 0x20 else s[i]]
  {
    assert s[..i + 1] == s[..i] + [s[i]];
    UnescapeConcat(s[..i], [s[i]], false);
    var escaped := EndsEscaped(s[..i], false);
    assert [s[i]][1..] == [];
    assert Unescape([s[i]], escaped)
        == if s[i] == ESCAPE then [] else [if escaped then s[i] ^ 0x20 else s[i]];
  }

  lemma {:induction false} UnescapeShrinks(s: seq<bv8>, escaped: bool)
    ensures |Unescape(s, escaped)| <= |s|
  {
    if s != [] {
      UnescapeShrinks(s[1..], s[0] == ESCAPE);
    }
  }

  lemma {:induction false} DecodeShrinks(s: seq<bv8>)
    ensures |Decode(s)| <= |s|
  {
    if s != [] && s[0] == FLAG {
      DecodeShrinks(s[1..]);
    } else {
      UnescapeShrinks(s, false);
    }
  }

  /** `remove_escape_hdlc_flag`: decodes the first `len` bytes of `buffer` in place. The scan
      for the first byte that is not a flag does not look at `len`, so some such byte must
      be in the buffer; the terminator needs a place after the decoded bytes, which a flag or
      an escape in a full buffer leaves free. */
  method RemoveEscapeHdlcFlag(buffer: array<bv8>, len: nat) returns (index: nat)
    requires len <= buffer.Length && (len > 0 ==> |Decode(buffer[..len])| < buffer.Length)
    requires len > 0 ==> exists k :: 0 <= k < buffer.Length && buffer[k] != FLAG
    modifies buffer
    ensures index <= len && buffer[..index] == Decode(old(buffer[..len]))
    ensures StripFlags(old(buffer[..len])) != [] ==> buffer[index] == 0
    ensures forall k :: len < k < buffer.Length ==> buffer[k] == old(buffer[k])
  {
    var i, escape := 0, false;
    index := 0;
    if len == 0 {
      return 0;
    }
    while buffer[i] == FLAG
      invariant 0 <= i < buffer.Length && forall k :: 0 <= k < i ==> buffer[k] == FLAG
      decreases buffer.Length - i
    {
      i := i + 1;
    }
    ghost var input := buffer[..len];
    ghost var start := if i <= len then i else len;
    StripFlagsFrom(input, start);
    if i == len {
      return 0;
    }
    ghost var rest := input[start..];
    assert StripFlags(rest) == rest;
    hide Unescape, EndsEscaped, StripFlags;
    if i < len {
      index := DecodeRest(buffer, i, len);
    }
    buffer[index] := 0;
  }

  /** One round of the decoder: the byte at `i` goes to position `at`, unless it is an escape. */
  method DecodeByte(buffer: array<bv8>, i: nat, at: nat, escape: bool) returns (index: nat, escaped: bool)
    requires at <= i < buffer.Length
    modifies buffer
    ensures forall k :: i < k < buffer.Length ==> buffer[k] == old(buffer[k])
    ensures escaped == (old(buffer[i]) == ESCAPE) && index == if escaped then at else at + 1
    ensures buffer[..index]
            == old(buffer[..at])
               + if escaped then [] else [if escape then old(buffer[i]) ^ 0x20 else old(buffer[i])]
  {
    if buffer[i] == ESCAPE {
      return at, true;
    }
    if escape {
      buffer[i] := buffer[i] ^ 0x20;
    }
    buffer[at] := buffer[i];
    return at + 1, false;
  }

  /** The decoding loop: from position `start`, read and write indices chase each other. */
  method DecodeRest(buffer: array<bv8>, start: nat, len: nat) returns (index: nat)
    requires start <= len <= buffer.Length
    modifies buffer
    ensures index <= len - start && buffer[..index] == Unescape(old(buffer[start..len]), false)
    ensures forall k :: len <= k < buffer.Length ==> buffer[k] == old(buffer[k])
  {
    hide Unescape, EndsEscaped;
    ghost var rest := buffer[start..len];
    UnescapeNothing();
    var escape := false;
    index := 0;
    for i := start to len
      invariant index <= i - start
      invariant forall k :: i <= k < buffer.Length ==> buffer[k] == old(buffer[k])
      invariant escape == EndsEscaped(rest[..i - start], false)
      invariant buffer[..index] == Unescape(rest[..i - start], false)
    {
      UnescapeSnoc(rest, i - start);
      index, escape := DecodeByte(buffer, i, index, escape);
    }
    assert rest[..len - start] == rest;
  }

  lemma UnescapeNothing()
    ensures Unescape([], false) == [] && !EndsEscaped([], false)
  {
  }

  /** From one end to the other: what the receiver decodes is the command with its parameter,
      its data and its check sequence, and the closing flag. */
  method SendAndDecode(cmd: bv8, parameter: seq<bv8>, data: seq<bv8>, flag: bool) returns (decoded: seq<bv8>)
    requires 1 + |parameter| + |data| + 2 <= MAX_BUFFER_SIZE
    requires var packet := [cmd] + parameter + data;
             |Frame(packet + CrcBytes(Crc(packet)), flag)| <= MAX_BUFFER_SIZE
    ensures var packet := [cmd] + parameter + data;
            decoded == packet + CrcBytes(Crc(packet)) + [FLAG]
  {
    hide Crc, Frame, Decode;
    var transmitter := new Transmitter();
    transmitter.ComposePacket(cmd, parameter, data);
    transmitter.ComputeReplyCrc();
    ghost var payload := transmitter.Packet();
    var written := transmitter.SendPacket(flag);
    var buffer := new bv8[|written| + 1](i requires 0 <= i <= |written| => if i < |written| then written[i] else 0);
    assert buffer[..|written|] == written && buffer[|written|] != FLAG;
    FrameRoundTrip(payload, flag);
    DecodeShrinks(written);
    var index := RemoveEscapeHdlcFlag(buffer, |written|);
    decoded := buffer[..index];
  }
}
