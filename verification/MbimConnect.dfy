/** The variable part of an MBIM connect request: `mbim_populate_connect_data` packs three
    strings as UTF-16 behind a fixed structure and records their places by offset and size;
    `mbim_get_segment` reads such a segment back (MBIM 1.0, section 10.5.12). */
module MbimConnect {
  import opened Bytes
  import opened Options

  const FIXED := 60  // sizeof(MBIM_SET_CONNECT_T): eleven words and a 16-byte UUID

  // Byte positions of the offset/size pairs in the fixed structure.
  const ACCESS_STRING := 8
  const USER_NAME := 16
  const PASSWORD := 24

  /** The characters of a C string, or nothing for a null pointer. */
  function Chars(s: Option<seq<byte>>): seq<byte> {
    if s.Some? then s.value else []
  }

  /** `_align_32`. */
  function Align32(len: nat): nat {
    len + if len % 4 != 0 then 4 - len % 4 else 0
  }

  /** `_align_32` gives the least multiple of four that is not below its argument. */
  lemma AlignIsLeast(len: nat)
    ensures len <= Align32(len) < len + 4 && Align32(len) % 4 == 0
  {
  }

  function Utf16(s: seq<byte>): (bytes: seq<byte>)
    ensures |bytes| == 2 * |s|
  {
    seq(2 * |s|, k requires 0 <= k < 2 * |s| => if k % 2 == 0 then s[k / 2] else 0)
  }

  function Space(s: seq<byte>): nat { Align32(2 * |s|) }

  /** The word at byte position `at`. */
  function WordAt(msg: seq<byte>, at: nat): nat
    requires at + 4 <= |msg|
  {
    FromLe32(msg[at..at + 4])
  }

  /** Segment `field` records a place inside the message that holds `s`; an empty string has
      no segment. */
  predicate Records(msg: seq<byte>, field: nat, s: seq<byte>, offset: nat)
    requires field + 8 <= |msg|
  {
    if s == [] then WordAt(msg, field) == 0 && WordAt(msg, field + 4) == 0
    else
      && WordAt(msg, field) == offset && WordAt(msg, field + 4) == 2 * |s|
      && offset % 4 == 0 && FIXED <= offset && offset + 2 * |s| <= |msg|
      && msg[offset..offset + 2 * |s|] == Utf16(s)
  }

  /** The three segments lie one after the other, none reaching into the next. */
  predicate Packed(msg: seq<byte>, apn: seq<byte>, user: seq<byte>, password: seq<byte>) {
    var o1 := FIXED;
    var o2 := o1 + Space(apn);
    var o3 := o2 + Space(user);
    && |msg| == o3 + Space(password)
    && Records(msg, ACCESS_STRING, apn, o1) && o1 + 2 * |apn| <= o2
    && Records(msg, USER_NAME, user, o2) && o2 + 2 * |user| <= o3
    && Records(msg, PASSWORD, password, o3)
  }

  /** Four bytes of the message as a number, low byte first. */
  function Number(msg: seq<byte>, at: nat): int
    requires at + 4 <= |msg|
  {
    msg[at] as int + 0x100 * msg[at + 1] as int + 0x1_0000 * msg[at + 2] as int + 0x100_0000 * msg[at + 3] as int
  }

  lemma NumberIsWord(msg: seq<byte>, at: nat)
    requires at + 4 <= |msg|
    ensures WordAt(msg, at) == Number(msg, at)
  {
  }

  /** One string in a packed message: its place and its size in bytes stand at `field`, and at
      the place stand its characters, each followed by a zero byte. */
  predicate StringAt(msg: seq<byte>, field: nat, s: seq<byte>, offset: nat)
    requires field + 8 <= |msg|
  {
    && Number(msg, field) == (if s == [] then 0 else offset)
    && Number(msg, field + 4) == 2 * |s|
    && (s != [] ==> offset + 2 * |s| <= |msg|)
    && (s != [] ==> forall i :: 0 <= i < |s| ==> msg[offset + 2 * i] == s[i] && msg[offset + 2 * i + 1] == 0)
  }

  lemma RecordedString(msg: seq<byte>, field: nat, s: seq<byte>, offset: nat)
    requires field + 8 <= |msg| && Records(msg, field, s, offset)
    ensures StringAt(msg, field, s, offset)
  {
    NumberIsWord(msg, field);
    NumberIsWord(msg, field + 4);
    hide WordAt, Number;
    if s != [] {
      forall i | 0 <= i < |s| ensures msg[offset + 2 * i] == s[i] && msg[offset + 2 * i + 1] == 0 {
        assert msg[offset..offset + 2 * |s|][2 * i] == Utf16(s)[2 * i];
        assert msg[offset..offset + 2 * |s|][2 * i + 1] == Utf16(s)[2 * i + 1];
      }
    }
  }

  lemma SpaceIs(s: seq<byte>)
    ensures Space(s) == (2 * |s| + 3) / 4 * 4
  {
  }

  /** A packed message byte by byte: access string, user name and password are recorded at 8,
      16 and 24 and lie from 60 on, each rounded up to a multiple of four. */
  lemma PackedBytes(msg: seq<byte>, apn: seq<byte>, user: seq<byte>, password: seq<byte>)
    requires Packed(msg, apn, user, password)
    ensures var userAt := 60 + (2 * |apn| + 3) / 4 * 4;
            var passwordAt := userAt + (2 * |user| + 3) / 4 * 4;
            && |msg| == passwordAt + (2 * |password| + 3) / 4 * 4
            && StringAt(msg, 8, apn, 60) && StringAt(msg, 16, user, userAt)
            && StringAt(msg, 24, password, passwordAt)
  {
    SpaceIs(apn);
    SpaceIs(user);
    SpaceIs(password);
    hide Records, StringAt, Space;
    RecordedString(msg, ACCESS_STRING, apn, FIXED);
    RecordedString(msg, USER_NAME, user, FIXED + Space(apn));
    RecordedString(msg, PASSWORD, password, FIXED + Space(apn) + Space(user));
  }

  /** Nothing but one field and one stretch of the data differs. */
  predicate OnlyWrote(before: seq<byte>, after: seq<byte>, field: nat, from: nat, to: nat) {
    && |before| == |after|
    && forall k :: 0 <= k < |before| && !(field <= k < field + 8) && !(from <= k < to) ==> after[k] == before[k]
  }

  /** One 32-bit field of the fixed structure. */
  method PutWord(msg: array<byte>, at: nat, v: nat)
    requires at + 4 <= msg.Length && v < TWO_32
    modifies msg
    ensures WordAt(msg[..], at) == v
    ensures forall k :: 0 <= k < msg.Length && !(at <= k < at + 4) ==> msg[k] == old(msg[k])
  {
    var bytes := Le32(v);
    forall k | 0 <= k < 4 {
      msg[at + k] := bytes[k];
    }
    assert msg[..][at..at + 4] == bytes;
    Le32RoundTrip(v);
  }

  method PutUtf16(msg: array<byte>, offset: nat, s: seq<byte>)
    requires offset + 2 * |s| <= msg.Length
    modifies msg
    ensures msg[offset..offset + 2 * |s|] == Utf16(s)
    ensures forall k :: 0 <= k < msg.Length && !(offset <= k < offset + 2 * |s|) ==> msg[k] == old(msg[k])
  {
    ghost var before := msg[..];
    for i := 0 to |s|
      invariant forall k :: 0 <= k < msg.Length ==>
                  msg[k] == if offset <= k < offset + 2 * i then Utf16(s)[k - offset] else before[k]
    {
      msg[offset + i * 2] := s[i];
      msg[offset + i * 2 + 1] := 0;
    }
  }

  lemma WordKept(before: seq<byte>, after: seq<byte>, at: nat)
    requires at + 4 <= |before| == |after| && forall k :: at <= k < at + 4 ==> after[k] == before[k]
    ensures WordAt(after, at) == WordAt(before, at)
  {
    assert after[at..at + 4] == before[at..at + 4];
  }

  /** Packs one string, when there is one, and gives the offset after it. */
  method PutSegment(msg: array<byte>, field: nat, s: seq<byte>, offset: nat) returns (next: nat)
    requires field + 8 <= FIXED <= offset && offset % 4 == 0 && offset + Space(s) <= msg.Length < TWO_32
    requires Blank(msg[..], field)
    modifies msg
    ensures next == offset + Space(s) && next % 4 == 0
    ensures Records(msg[..], field, s, offset)
    ensures OnlyWrote(old(msg[..]), msg[..], field, offset, next)
  {
    hide FromLe32, Le32, Utf16, Align32;
    next := offset;
    AlignAfterAligned(offset, 2 * |s|);
    SpaceHolds(s);
    if |s| > 0 {
      PutWord(msg, field + 4, 2 * |s|);
      ghost var m1 := msg[..];
      PutWord(msg, field, offset);
      ghost var m2 := msg[..];
      PutUtf16(msg, offset, s);
      WordKept(m1, m2, field + 4);
      WordKept(m2, msg[..], field + 4);
      WordKept(m2, msg[..], field);
      assert msg[..][offset..offset + 2 * |s|] == msg[offset..offset + 2 * |s|];
      next := Align32(next + 2 * |s|);
    }
  }

  /** Writing one segment leaves another, which lies apart from it, as it was. */
  lemma RecordsKept(before: seq<byte>, after: seq<byte>, other: nat, from: nat, to: nat,
                    field: nat, s: seq<byte>, offset: nat)
    requires field + 8 <= FIXED <= |before| && FIXED <= from && OnlyWrote(before, after, other, from, to)
    requires field + 8 <= other || other + 8 <= field
    requires other + 8 <= FIXED && FIXED <= offset && offset + 2 * |s| <= from
    requires Records(before, field, s, offset)
    ensures Records(after, field, s, offset)
  {
    assert after[field..field + 4] == before[field..field + 4];
    assert after[field + 4..field + 8] == before[field + 4..field + 8];
    if s != [] {
      assert after[offset..offset + 2 * |s|] == before[offset..offset + 2 * |s|];
    }
  }

  /** A field not yet used: offset and size both zero. */
  predicate Blank(msg: seq<byte>, field: nat)
    requires field + 8 <= |msg|
  {
    WordAt(msg, field) == 0 && WordAt(msg, field + 4) == 0
  }

  lemma ZeroesAreBlank(msg: seq<byte>, field: nat)
    requires field + 8 <= |msg| && forall k :: field <= k < field + 8 ==> msg[k] == 0
    ensures Blank(msg, field)
  {
  }

  lemma BlankKept(before: seq<byte>, after: seq<byte>, other: nat, from: nat, to: nat, field: nat)
    requires field + 8 <= FIXED <= |before| && FIXED <= from && OnlyWrote(before, after, other, from, to)
    requires field + 8 <= other || other + 8 <= field
    requires Blank(before, field)
    ensures |after| == |before| && Blank(after, field)
  {
    WordKept(before, after, field);
    WordKept(before, after, field + 4);
  }

  lemma AlignAfterAligned(total: nat, len: nat)
    requires total % 4 == 0
    ensures Align32(total + len) == total + Align32(len)
    ensures Align32(total + len) % 4 == 0
  {
    assert total == 4 * (total / 4);
    assert (total + len) % 4 == len % 4;
  }

  lemma SpaceHolds(s: seq<byte>)
    ensures 2 * |s| <= Space(s) && Space(s) % 4 == 0 && (s == [] ==> Space(s) == 0)
  {
    AlignIsLeast(2 * |s|);
  }

  /** The room the three strings need: the running total is aligned after each of them. */
  method BufferLength(apn: Option<seq<byte>>, user: Option<seq<byte>>, password: Option<seq<byte>>)
    returns (buflen: nat)
    ensures buflen == Space(Chars(apn)) + Space(Chars(user)) + Space(Chars(password))
  {
    hide Align32;
    AlignAfterAligned(0, 2 * |Chars(apn)|);
    AlignAfterAligned(Space(Chars(apn)), 2 * |Chars(user)|);
    AlignAfterAligned(Space(Chars(apn)) + Space(Chars(user)), 2 * |Chars(password)|);
    buflen := 0;
    if apn.Some? && |apn.value| > 0 {
      buflen := buflen + 2 * |apn.value|;
    }
    buflen := Align32(buflen);
    if user.Some? && |user.value| > 0 {
      buflen := buflen + 2 * |user.value|;
    }
    buflen := Align32(buflen);
    if password.Some? && |password.value| > 0 {
      buflen := buflen + 2 * |password.value|;
    }
    buflen := Align32(buflen);
  }

  /** `mbim_populate_connect_data`; the result is `buflen`, and the message it has filled. */
  method PopulateConnectData(apn: Option<seq<byte>>, user: Option<seq<byte>>, password: Option<seq<byte>>)
    returns (msg: array<byte>, buflen: nat)
    requires FIXED + Space(Chars(apn)) + Space(Chars(user)) + Space(Chars(password)) < 0x8000_0000
    ensures fresh(msg) && msg.Length == FIXED + buflen
    ensures Packed(msg[..], Chars(apn), Chars(user), Chars(password))
  {
    hide Records, Blank, Align32, Space, OnlyWrote, WordAt, FromLe32, Utf16;
    var a, u, p := Chars(apn), Chars(user), Chars(password);
    SpaceHolds(a);
    SpaceHolds(u);
    SpaceHolds(p);
    buflen := BufferLength(apn, user, password);
    msg := new byte[FIXED + buflen](_ => 0);
    ghost var m0 := msg[..];
    ZeroesAreBlank(m0, ACCESS_STRING);
    ZeroesAreBlank(m0, USER_NAME);
    ZeroesAreBlank(m0, PASSWORD);
    var o2 := PutSegment(msg, ACCESS_STRING, a, FIXED);
    ghost var m1 := msg[..];
    BlankKept(m0, m1, ACCESS_STRING, FIXED, o2, USER_NAME);
    BlankKept(m0, m1, ACCESS_STRING, FIXED, o2, PASSWORD);
    var o3 := PutSegment(msg, USER_NAME, u, o2);
    ghost var m2 := msg[..];
    BlankKept(m1, m2, USER_NAME, o2, o3, PASSWORD);
    RecordsKept(m1, m2, USER_NAME, o2, o3, ACCESS_STRING, a, FIXED);
    var end := PutSegment(msg, PASSWORD, p, o3);
    ghost var m3 := msg[..];
    RecordsKept(m2, m3, PASSWORD, o3, end, ACCESS_STRING, a, FIXED);
    RecordsKept(m2, m3, PASSWORD, o3, end, USER_NAME, u, o2);
  }

  /** `mbim_get_segment`: every other byte of a segment. Its static buffer has room for 255
      characters and the terminating zero. */
  method GetSegment(msg: seq<byte>, offset: nat, len: nat) returns (chars: seq<byte>)
    requires len / 2 <= 255 && (len >= 2 ==> offset + (len / 2 - 1) * 2 < |msg|)
    ensures |chars| == len / 2 && forall i :: 0 <= i < len / 2 ==> chars[i] == msg[offset + i * 2]
  {
    chars := [];
    for idx := 0 to len / 2
      invariant |chars| == idx && forall i :: 0 <= i < idx ==> chars[i] == msg[offset + i * 2]
    {
      chars := chars + [msg[offset + idx * 2]];
    }
  }

  lemma SegmentHolds(msg: seq<byte>, offset: nat, s: seq<byte>)
    requires offset + 2 * |s| <= |msg| && msg[offset..offset + 2 * |s|] == Utf16(s)
    ensures forall i :: 0 <= i < |s| ==> msg[offset + i * 2] == s[i]
  {
    forall i | 0 <= i < |s| ensures msg[offset + i * 2] == s[i] {
      assert msg[offset + i * 2] == Utf16(s)[i * 2];
    }
  }

  /** The place recorded for a string of at most 255 characters leads back to the string. */
  method ReadBack(msg: seq<byte>, field: nat, ghost s: seq<byte>, ghost offset: nat) returns (chars: seq<byte>)
    requires field + 8 <= |msg| && Records(msg, field, s, offset) && |s| <= 255
    ensures chars == s
  {
    hide FromLe32, Utf16;
    if s != [] {
      SegmentHolds(msg, offset, s);
    }
    chars := GetSegment(msg, WordAt(msg, field), WordAt(msg, field + 4));
  }

  /** All three strings of a packed request come back as they went in. */
  method RoundTrip(apn: seq<byte>, user: seq<byte>, password: seq<byte>)
    returns (a: seq<byte>, u: seq<byte>, p: seq<byte>)
    requires |apn| <= 255 && |user| <= 255 && |password| <= 255
    ensures a == apn && u == user && p == password
  {
    hide Records;
    var msg, buflen := PopulateConnectData(Some(apn), Some(user), Some(password));
    a := ReadBack(msg[..], ACCESS_STRING, apn, FIXED);
    u := ReadBack(msg[..], USER_NAME, user, FIXED + Space(apn));
    p := ReadBack(msg[..], PASSWORD, password, FIXED + Space(apn) + Space(user));
  }
}
