/** Type-length-value lists in QMI messages: the composers and the look-ups of
    `QMIThread.c`, and the second look-up, written on its own, of `quectel-qmi-proxy.c`. */
module QmiTlv {
  import opened Bytes
  import opened Options
  import opened Sequences

  datatype RawTlv = Tlv(tag: byte, value: seq<byte>)
  type Tlv = t: RawTlv | |t.value| < TWO_16 witness Tlv(0, [])

  const HEADER := 3  // sizeof(QMI_TLV_HDR): one byte of type, two of length

  function EncodeOne(t: Tlv): seq<byte> {
    [t.tag] + Le16(|t.value|) + t.value
  }

  function Encode(ts: seq<Tlv>): seq<byte> {
    if ts == [] then [] else EncodeOne(ts[0]) + Encode(ts[1..])
  }

  /** Where the `k`-th TLV of the list starts. */
  function Offset(ts: seq<Tlv>, k: nat): nat
    requires k <= |ts|
  {
    |Encode(ts[..k])|
  }

  /** The first TLV of type `tag`, or the length of the list. */
  function FirstOf(ts: seq<Tlv>, tag: int): (k: nat)
    ensures k <= |ts| && (k < |ts| ==> ts[k].tag == tag) && forall i :: 0 <= i < k ==> ts[i].tag != tag
  {
    if ts == [] || ts[0].tag == tag then 0 else 1 + FirstOf(ts[1..], tag)
  }

  lemma {:induction false} EncodeConcat(a: seq<Tlv>, b: seq<Tlv>)
    ensures Encode(a + b) == Encode(a) + Encode(b)
  {
    if a == [] {
      assert a + b == b;
    } else {
      assert (a + b)[1..] == a[1..] + b;
      EncodeConcat(a[1..], b);
    }
  }

  lemma EncodeSingle(t: Tlv)
    ensures Encode([t]) == EncodeOne(t)
  {
    hide EncodeOne;
    assert Encode([t]) == EncodeOne(t) + [];
  }

  lemma EncodeSnoc(ts: seq<Tlv>, k: nat)
    requires k < |ts|
    ensures Encode(ts[..k + 1]) == Encode(ts[..k]) + EncodeOne(ts[k])
  {
    hide EncodeOne, Encode;
    assert ts[..k + 1] == ts[..k] + [ts[k]];
    EncodeConcat(ts[..k], [ts[k]]);
    EncodeSingle(ts[k]);
  }

  lemma EncodeSplit(ts: seq<Tlv>, k: nat)
    requires k <= |ts|
    ensures Encode(ts) == Encode(ts[..k]) + Encode(ts[k..])
  {
    hide Encode;
    assert ts == ts[..k] + ts[k..];
    EncodeConcat(ts[..k], ts[k..]);
  }

  lemma EncodedHeader(t: Tlv, before: seq<byte>, after: seq<byte>)
    ensures var wire, p := before + EncodeOne(t) + after, |before|;
            && wire[p] == t.tag && FromLe16(wire[p + 1..p + HEADER]) == |t.value|
            && wire[p + HEADER..p + HEADER + |t.value|] == t.value
  {
    hide Le16, FromLe16;
    var wire, p := before + EncodeOne(t) + after, |before|;
    Le16RoundTrip(|t.value|);
    assert wire[p + 1..p + HEADER] == Le16(|t.value|);
  }

  lemma EncodeAround(ts: seq<Tlv>, k: nat, rest: seq<byte>)
    requires k < |ts|
    ensures Encode(ts) + rest == Encode(ts[..k]) + EncodeOne(ts[k]) + (Encode(ts[k + 1..]) + rest)
    ensures Offset(ts, k + 1) == Offset(ts, k) + HEADER + |ts[k].value| <= |Encode(ts)|
  {
    EncodeSnoc(ts, k);
    EncodeSplit(ts, k + 1);
    var one := EncodeOne(ts[k]);
    assert |one| == HEADER + |ts[k].value|;
    hide Encode, EncodeOne;
    Regroup(Encode(ts[..k]), one, Encode(ts[k + 1..]), rest);
  }

  lemma Regroup(a: seq<byte>, b: seq<byte>, c: seq<byte>, d: seq<byte>)
    ensures a + b + c + d == a + b + (c + d)
  {
  }

  /** At its offset the wire holds the TLV's type, length and value. */
  lemma EncodedAt(ts: seq<Tlv>, k: nat, rest: seq<byte>)
    requires k < |ts|
    ensures var wire, p := Encode(ts) + rest, Offset(ts, k);
            && Offset(ts, k + 1) == p + HEADER + |ts[k].value| <= |Encode(ts)|
            && wire[p] == ts[k].tag && FromLe16(wire[p + 1..p + HEADER]) == |ts[k].value|
            && wire[p + HEADER..Offset(ts, k + 1)] == ts[k].value
  {
    hide Encode, EncodeOne, FromLe16;
    EncodeAround(ts, k, rest);
    EncodedHeader(ts[k], Encode(ts[..k]), Encode(ts[k + 1..]) + rest);
  }

  // ---------------------------------------------------------------------------
  // Look-ups
  // ---------------------------------------------------------------------------

  /** `rest` does not begin with a whole TLV. */
  predicate Cut(rest: seq<byte>) {
    |rest| < HEADER || |rest| < HEADER + FromLe16(rest[1..HEADER])
  }

  /** The TLVs that lie whole in a message, up to the first that does not. */
  function TlvsIn(m: seq<byte>): seq<Tlv>
    decreases |m|
  {
    if Cut(m) then []
    else
      var n := HEADER + FromLe16(m[1..HEADER]);
      [Tlv(m[0], m[HEADER..n])] + TlvsIn(m[n..])
  }

  /** What follows them. */
  function RestOf(m: seq<byte>): (rest: seq<byte>)
    ensures Cut(rest) && |rest| <= |m|
    decreases |m|
  {
    if Cut(m) then m else RestOf(m[HEADER + FromLe16(m[1..HEADER])..])
  }

  lemma OneFromWire(m: seq<byte>)
    requires !Cut(m)
    ensures var n := HEADER + FromLe16(m[1..HEADER]); EncodeOne(Tlv(m[0], m[HEADER..n])) == m[..n]
  {
    var b := m[1..HEADER];
    assert Le16(FromLe16(b)) == b by {
      Le16OfBytes(b);
    }
    hide Le16, FromLe16;
    var n := HEADER + FromLe16(b);
    assert m[..n] == [m[0]] + b + m[HEADER..n];
  }

  lemma Le16OfBytes(b: seq<byte>)
    requires |b| == 2
    ensures Le16(FromLe16(b)) == b
  {
  }

  /** Every message is a list of TLVs and a rest. */
  lemma {:induction false} MessageSplits(m: seq<byte>)
    ensures m == Encode(TlvsIn(m)) + RestOf(m)
    decreases |m|
  {
    hide EncodeOne, FromLe16;
    if !Cut(m) {
      OneFromWire(m);
      var n := HEADER + FromLe16(m[1..HEADER]);
      var one, ts := Tlv(m[0], m[HEADER..n]), TlvsIn(m[n..]);
      MessageSplits(m[n..]);
      assert ([one] + ts)[1..] == ts;
      assert m == m[..n] + m[n..];
    }
  }

  lemma WholeHead(t: Tlv, tail: seq<byte>)
    ensures var m, n := EncodeOne(t) + tail, HEADER + |t.value|;
            && !Cut(m) && HEADER + FromLe16(m[1..HEADER]) == n
            && m[0] == t.tag && m[HEADER..n] == t.value && m[n..] == tail
  {
    EncodedHeader(t, [], tail);
    assert [] + EncodeOne(t) + tail == EncodeOne(t) + tail;
    assert |EncodeOne(t)| == HEADER + |t.value|;
    hide EncodeOne, FromLe16;
  }

  lemma SplitHead(t: Tlv, tail: seq<byte>)
    ensures TlvsIn(EncodeOne(t) + tail) == [t] + TlvsIn(tail) && RestOf(EncodeOne(t) + tail) == RestOf(tail)
  {
    WholeHead(t, tail);
    hide Cut, EncodeOne, FromLe16;
  }

  lemma EncodeHead(ts: seq<Tlv>, rest: seq<byte>)
    requires ts != []
    ensures Encode(ts) + rest == EncodeOne(ts[0]) + (Encode(ts[1..]) + rest)
  {
    hide EncodeOne;
    Assoc(EncodeOne(ts[0]), Encode(ts[1..]), rest);
  }

  /** And in one way only. */
  lemma {:induction false} SplitIsUnique(ts: seq<Tlv>, rest: seq<byte>)
    requires Cut(rest)
    ensures TlvsIn(Encode(ts) + rest) == ts && RestOf(Encode(ts) + rest) == rest
  {
    if ts == [] {
      assert Encode(ts) + rest == rest;
    } else {
      EncodeHead(ts, rest);
      hide Cut, EncodeOne, Encode, TlvsIn, RestOf;
      SplitHead(ts[0], Encode(ts[1..]) + rest);
      SplitIsUnique(ts[1..], rest);
      assert [ts[0]] + ts[1..] == ts;
    }
  }

  /** What a look-up comes to: a position, the null pointer, or reading on behind the message. */
  datatype LookUp = At(p: nat) | Nowhere | Astray

  /** What `GetTLV` promises: types above 0x1000 ask for the n-th TLV, all others for the
      first of that type. */
  function Wanted(ts: seq<Tlv>, tlvType: int): (k: nat)
    ensures k <= |ts|
  {
    if tlvType > 0x1000 then (if tlvType - 0x1001 < |ts| then tlvType - 0x1001 else |ts|)
    else FirstOf(ts, tlvType)
  }

  /** The header behind the last whole TLV is there, and is not the one that is asked for. */
  predicate Passed(ts: seq<Tlv>, rest: seq<byte>, tlvType: int) {
    |rest| >= HEADER && if tlvType > 0x1000 then tlvType - 0x1001 != |ts| else rest[0] != tlvType
  }

  /** How far a last TLV reaches behind the message. */
  function Overrun(rest: seq<byte>): (n: nat)
    requires Cut(rest) && |rest| >= HEADER
    ensures 0 < n < TWO_16
  {
    HEADER + FromLe16(rest[1..HEADER]) - |rest|
  }

  /** `GetTLV` on any message. `Length` is a 16-bit count: a last TLV that reaches behind the
      message makes it wrap to a large number, and the source reads on there unless what
      remains is less than a header. */
  method GetTlv(m: seq<byte>, tlvType: int) returns (found: LookUp)
    requires |m| < TWO_16
    ensures var ts, rest := TlvsIn(m), RestOf(m);
            var k := Wanted(ts, tlvType);
            && (k < |ts| ==> found == At(Offset(ts, k)))
            && (k == |ts| && |rest| < HEADER ==> found == Nowhere)
            && (k == |ts| && |rest| >= HEADER && !Passed(ts, rest, tlvType) ==> found == At(|m| - |rest|))
            && (k == |ts| && Passed(ts, rest, tlvType) ==>
                  found == if Overrun(rest) > TWO_16 - HEADER then Nowhere else Astray)
  {
    hide Encode, FromLe16, TlvsIn, RestOf, FirstOf;
    var tlvFind, left, p := 0, |m|, 0;
    ghost var ts, rest, over := TlvsIn(m), RestOf(m), false;
    MessageSplits(m);
    OffsetOfNone(ts);
    OffsetOfAll(ts);
    while left >= HEADER
      invariant 0 <= left < TWO_16
      invariant over ==> Wanted(ts, tlvType) == |ts| && Passed(ts, rest, tlvType)
                         && p > |m| && left == TWO_16 - Overrun(rest)
      invariant !over ==> tlvFind <= Wanted(ts, tlvType) && p == Offset(ts, tlvFind) && left == |m| - p
      decreases if over then 0 else 1 + left
    {
      if p + HEADER > |m| {
        return Astray;
      }
      if tlvFind < |ts| {
        EncodedAt(ts, tlvFind, rest);
      }
      assert tlvFind == |ts| ==> m[p..] == rest && m[p + 1..p + HEADER] == rest[1..HEADER];
      tlvFind := tlvFind + 1;
      if tlvType > 0x1000 {
        if tlvFind + 0x1000 == tlvType {
          return At(p);
        }
      } else if m[p] == tlvType {
        return At(p);
      }
      over := tlvFind > |ts|;
      var valueLength := FromLe16(m[p + 1..p + HEADER]);
      left := (left - (valueLength + HEADER)) % TWO_16;
      p := p + valueLength + HEADER;
    }
    if !over && tlvFind < |ts| {
      EncodedAt(ts, tlvFind, rest);
    }
    return Nowhere;
  }

  /** `qmi_find_tlv` on any message: behind the whole TLVs it takes any bytes for one more,
      even when the length of that one is read from behind the message. */
  method QmiFindTlv(payload: seq<byte>, length: nat, tlvType: byte) returns (at: Option<nat>)
    requires length < TWO_16 && length <= |payload|
    requires var rest := RestOf(payload[..length]); rest != [] ==> length - |rest| + HEADER <= |payload|
    ensures var ts, rest := TlvsIn(payload[..length]), RestOf(payload[..length]);
            at == if FirstOf(ts, tlvType) < |ts| then Some(Offset(ts, FirstOf(ts, tlvType)))
                  else if rest != [] && rest[0] == tlvType then Some(length - |rest|)
                  else None
  {
    hide Encode, FromLe16, TlvsIn, RestOf;
    var p := 0;
    ghost var m := payload[..length];
    ghost var ts, rest, k, past := TlvsIn(m), RestOf(m), 0, false;
    MessageSplits(m);
    OffsetOfNone(ts);
    OffsetOfAll(ts);
    while p < length
      invariant past ==> p >= length && FirstOf(ts, tlvType) == |ts| && rest != [] && rest[0] != tlvType
      invariant !past ==> k <= FirstOf(ts, tlvType) && p == Offset(ts, k) <= length
      decreases length - p
    {
      if k < |ts| {
        EncodedAt(ts, k, rest);
        assert m[p + 1..p + HEADER] == payload[p + 1..p + HEADER];
      } else {
        assert m[p..] == rest;
        assert |rest| >= HEADER ==> payload[p + 1..p + HEADER] == m[p..][1..HEADER];
      }
      assert m[p] == payload[p];
      if payload[p] == tlvType {
        return Some(p);
      }
      past := k == |ts|;
      p := p + FromLe16(payload[p + 1..p + HEADER]) + HEADER;
      k := k + 1;
    }
    if !past && k < |ts| {
      EncodedAt(ts, k, rest);
    }
    return None;
  }

  lemma OffsetOfNone(ts: seq<Tlv>)
    ensures Offset(ts, 0) == 0
  {
    assert ts[..0] == [];
  }

  lemma OffsetOfAll(ts: seq<Tlv>)
    ensures Offset(ts, |ts|) == |Encode(ts)|
  {
    assert ts[..|ts|] == ts;
  }

  /** The two look-ups agree on a message, for every type a byte can name, unless that type
      is in no whole TLV and bytes follow that either are too few for a header and begin with
      it, or are the header of another TLV that leads `GetTLV` astray. */
  method LookUpsAgree(payload: seq<byte>, length: nat, tlvType: byte) returns (a: LookUp, b: Option<nat>)
    requires length < TWO_16 && length <= |payload|
    requires var rest := RestOf(payload[..length]); rest != [] ==> length - |rest| + HEADER <= |payload|
    ensures var ts, rest := TlvsIn(payload[..length]), RestOf(payload[..length]);
            a == (if b.Some? then At(b.value) else Nowhere)
            <==> !(FirstOf(ts, tlvType) == |ts| && rest != []
                   && if |rest| < HEADER then rest[0] == tlvType
                      else rest[0] != tlvType && Overrun(rest) <= TWO_16 - HEADER)
  {
    hide Encode, FromLe16, TlvsIn, RestOf, FirstOf;
    a := GetTlv(payload[..length], tlvType);
    b := QmiFindTlv(payload, length, tlvType);
  }

  // ---------------------------------------------------------------------------
  // What the composers are to write
  // ---------------------------------------------------------------------------

  /** The value of the first TLV of type `tag`. */
  function Field(ts: seq<Tlv>, tag: int): Option<seq<byte>> {
    var k := FirstOf(ts, tag);
    if k < |ts| then Some(ts[k].value) else None
  }

  /** The TLVs of a message in order, with None for those that a request leaves out. */
  type Parts = seq<Option<Tlv>>

  function Present(parts: Parts): seq<Tlv> {
    if parts == [] then []
    else Present(parts[..|parts| - 1])
         + if parts[|parts| - 1].Some? then [parts[|parts| - 1].value] else []
  }

  /** The bytes that the present parts take on the wire. */
  function Wire(parts: Parts): seq<byte> {
    if parts == [] then []
    else Wire(parts[..|parts| - 1])
         + if parts[|parts| - 1].Some? then EncodeOne(parts[|parts| - 1].value) else []
  }

  lemma {:induction false} WireIsEncoding(parts: Parts)
    ensures Wire(parts) == Encode(Present(parts))
  {
    hide EncodeOne;
    if parts != [] {
      var rest, last := parts[..|parts| - 1], parts[|parts| - 1];
      WireIsEncoding(rest);
      if last.Some? {
        EncodeConcat(Present(rest), [last.value]);
        EncodeSingle(last.value);
      } else {
        assert Present(rest) + [] == Present(rest);
      }
    }
  }

  lemma {:induction false} WirePrefix(parts: Parts, k: nat)
    requires k <= |parts|
    ensures |Wire(parts[..k])| <= |Wire(parts)|
    decreases |parts| - k
  {
    if k < |parts| {
      assert parts[..k + 1][..k] == parts[..k];
      WirePrefix(parts, k + 1);
    } else {
      assert parts[..k] == parts;
    }
  }

  lemma {:induction false} FieldSnoc(ts: seq<Tlv>, t: Tlv, tag: int)
    ensures Field(ts + [t], tag)
            == if Field(ts, tag).Some? then Field(ts, tag) else if t.tag == tag then Some(t.value) else None
  {
    if ts == [] {
      assert [] + [t] == [t];
    } else {
      assert (ts + [t])[1..] == ts[1..] + [t];
      FieldSnoc(ts[1..], t, tag);
    }
  }

  /** A type used by one part only is found exactly when that part is present. */
  lemma {:induction false} FieldOfPart(parts: Parts, k: nat, tag: int)
    requires k < |parts| && (parts[k].Some? ==> parts[k].value.tag == tag)
    requires forall i :: 0 <= i < |parts| && i != k && parts[i].Some? ==> parts[i].value.tag != tag
    ensures Field(Present(parts), tag) == if parts[k].Some? then Some(parts[k].value.value) else None
  {
    hide Field;
    var rest, last := parts[..|parts| - 1], parts[|parts| - 1];
    if k == |parts| - 1 {
      FieldAbsent(rest, tag);
    } else {
      FieldOfPart(rest, k, tag);
    }
    if last.Some? {
      FieldSnoc(Present(rest), last.value, tag);
    } else {
      assert Present(rest) + [] == Present(rest);
    }
  }

  lemma {:induction false} FieldAbsent(parts: Parts, tag: int)
    requires forall i :: 0 <= i < |parts| && parts[i].Some? ==> parts[i].value.tag != tag
    ensures Field(Present(parts), tag) == None
  {
    if parts != [] {
      var rest, last := parts[..|parts| - 1], parts[|parts| - 1];
      FieldAbsent(rest, tag);
      if last.Some? {
        FieldSnoc(Present(rest), last.value, tag);
      } else {
        assert Present(rest) + [] == Present(rest);
      }
    }
  }

  /** A string short enough for a 16-bit length; the terminating zero is not part of it. */
  type CString = s: seq<byte> | |s| < TWO_16

  /** The fields of `PROFILE_T` that the composers read. */
  datatype Profile = Profile(apn: Option<CString>, user: Option<CString>, password: Option<CString>,
                             auth: int, pdp: int, curIpFamily: int, enableIpv4: bool, enableIpv6: bool)

  /** The low byte of an int. */
  function Byte(v: int): byte { v % 256 }

  function StringPart(tag: byte, s: Option<CString>): Option<Tlv> {
    if s.Some? then Some(Tlv(tag, s.value)) else None
  }

  function BytePart(tag: byte, v: int): Option<Tlv> {
    Some(Tlv(tag, [Byte(v)]))
  }

  // "ctnet@mycdma.cn" and "vnet.mobi"
  const CDMA_USER: CString := [99, 116, 110, 101, 116, 64, 109, 121, 99, 100, 109, 97, 46, 99, 110]
  const CDMA_PASSWORD: CString := [118, 110, 101, 116, 46, 109, 111, 98, 105]

  predicate Blank(s: Option<CString>) { s.None? || s.value == [] }

  datatype Account = Account(user: Option<CString>, password: Option<CString>, auth: int)

  /** On a CDMA network a profile without name and password gets the carrier's account. */
  function AccountOf(p: Profile, cdma: bool): Account {
    if cdma && Blank(p.user) && Blank(p.password) then Account(Some(CDMA_USER), Some(CDMA_PASSWORD), 2)
    else Account(p.user, p.password, p.auth)
  }

  function StartNwParts(p: Profile, cdma: bool): Parts {
    var a := AccountOf(p, cdma);
    [BytePart(0x30, if cdma then 2 else 1),
     StringPart(0x14, if cdma then None else p.apn),
     StringPart(0x17, a.user),
     StringPart(0x18, a.password),
     if a.user.Some? && a.password.Some? then BytePart(0x16, a.auth) else None,
     BytePart(0x19, p.curIpFamily),
     if p.pdp != 0 && !cdma then BytePart(0x31, p.pdp) else None]
  }

  function PdpType(p: Profile): byte {
    if p.enableIpv4 && p.enableIpv6 then 3 else if p.enableIpv6 then 2 else 0
  }

  function ModifyParts(p: Profile): Parts {
    [Some(Tlv(0x01, [0, Byte(p.pdp)])),
     BytePart(0x11, PdpType(p)),
     StringPart(0x14, p.apn),
     StringPart(0x1B, p.user),
     StringPart(0x1C, p.password),
     if p.user.Some? && p.password.Some? then BytePart(0x1D, p.auth) else None]
  }

  lemma CarrierAccount()
    ensures CDMA_USER == Codes("ctnet@mycdma.cn") && CDMA_PASSWORD == Codes("vnet.mobi")
  {
  }

  /** The bytes of an ASCII text. */
  function Codes(text: string): seq<byte> {
    seq(|text|, i requires 0 <= i < |text| => text[i] as int % 256)
  }

  /** Every field of a start-network request is found again under its type. On a CDMA network
      (technology 2, and 1 otherwise) a profile without name and password gets the carrier's
      account with authentication 2. */
  lemma StartNwFields(p: Profile, cdma: bool)
    ensures var ts := Present(StartNwParts(p, cdma));
            var carrier := cdma && (p.user.None? || p.user.value == []) && (p.password.None? || p.password.value == []);
            var user := if carrier then Some(Codes("ctnet@mycdma.cn")) else p.user;
            var password := if carrier then Some(Codes("vnet.mobi")) else p.password;
            && Field(ts, 0x30) == Some([if cdma then 2 else 1])
            && Field(ts, 0x14) == (if cdma then None else p.apn)
            && Field(ts, 0x17) == user
            && Field(ts, 0x18) == password
            && Field(ts, 0x16) == (if user.Some? && password.Some? then Some([if carrier then 2 else p.auth % 256])
                                   else None)
            && Field(ts, 0x19) == Some([p.curIpFamily % 256])
            && Field(ts, 0x31) == (if p.pdp != 0 && !cdma then Some([p.pdp % 256]) else None)
  {
    CarrierAccount();
    AccountIs(p, cdma);
    hide Codes;
    hide Field, Present, AccountOf;
    var parts := StartNwParts(p, cdma);
    FieldOfPart(parts, 0, 0x30);
    FieldOfPart(parts, 1, 0x14);
    FieldOfPart(parts, 2, 0x17);
    FieldOfPart(parts, 3, 0x18);
    FieldOfPart(parts, 4, 0x16);
    FieldOfPart(parts, 5, 0x19);
    FieldOfPart(parts, 6, 0x31);
  }

  lemma AccountIs(p: Profile, cdma: bool)
    ensures AccountOf(p, cdma)
            == if cdma && (p.user.None? || p.user.value == []) && (p.password.None? || p.password.value == [])
               then Account(Some(CDMA_USER), Some(CDMA_PASSWORD), 2) else Account(p.user, p.password, p.auth)
  {
  }

  /** And so is every field of a modify-profile request; type 0 is IPv4, 2 IPv6 and 3 both. */
  lemma ModifyFields(p: Profile)
    ensures var ts := Present(ModifyParts(p));
            && Field(ts, 0x01) == Some([0, p.pdp % 256])
            && Field(ts, 0x11) == Some([if p.enableIpv4 && p.enableIpv6 then 3 else if p.enableIpv6 then 2 else 0])
            && Field(ts, 0x14) == p.apn
            && Field(ts, 0x1B) == p.user
            && Field(ts, 0x1C) == p.password
            && Field(ts, 0x1D) == (if p.user.Some? && p.password.Some? then Some([p.auth % 256]) else None)
  {
    hide Field, Present;
    var parts := ModifyParts(p);
    FieldOfPart(parts, 0, 0x01);
    FieldOfPart(parts, 1, 0x11);
    FieldOfPart(parts, 2, 0x14);
    FieldOfPart(parts, 3, 0x1B);
    FieldOfPart(parts, 4, 0x1C);
    FieldOfPart(parts, 5, 0x1D);
  }

  // ---------------------------------------------------------------------------
  // The composers
  // ---------------------------------------------------------------------------

  const WDM_DEFAULT_BUFSIZE := 256
  const PAYLOAD := 13  // QCQMI_HDR, QCQMUX_HDR and QCQMUX_MSG_HDR come first

  /** What `customQmuxMsgFunction` and its argument may be. */
  datatype Body = Nothing | StartNetwork(profile: Profile, cdma: bool) | ModifyProfile(profile: Profile)

  function PartsOf(body: Body): Parts {
    match body
    case Nothing => []
    case StartNetwork(p, cdma) => StartNwParts(p, cdma)
    case ModifyProfile(p) => ModifyParts(p)
  }

  /** Whether a string is the last thing written; its terminating zero then needs one byte
      more. A start-network request always ends in a byte. */
  predicate EndsInString(body: Body) {
    body.ModifyProfile?
    && !(body.profile.user.Some? && body.profile.password.Some?)
    && (body.profile.apn.Some? || body.profile.user.Some? || body.profile.password.Some?)
  }

  /** The message, and the zero behind a last string, fit the composer's buffer. */
  predicate Fits(body: Body) {
    PAYLOAD + |Wire(PartsOf(body))| + (if EndsInString(body) then 1 else 0) <= WDM_DEFAULT_BUFSIZE
  }

  function Message(qmiType: byte, clientId: int, tid: nat, msgType: nat, payload: seq<byte>): seq<byte>
    requires tid < TWO_16 && msgType < TWO_16 && |payload| <= WDM_DEFAULT_BUFSIZE
  {
    [0x01] + Le16(|payload| + PAYLOAD - 1) + [0x00, qmiType, Byte(clientId)]
    + [0x00] + Le16(tid) + Le16(msgType) + Le16(|payload|) + payload
  }

  class Composer {
    const buf: array<byte>
    var transactionId: nat

    predicate Valid()
      reads this
    {
      buf.Length == WDM_DEFAULT_BUFSIZE && transactionId < TWO_16
    }

    constructor ()
      ensures Valid() && transactionId == 0 && fresh(buf)
    {
      buf := new byte[WDM_DEFAULT_BUFSIZE](_ => 0);
      transactionId := 0;
    }

    method Put(at: nat, bytes: seq<byte>)
      requires at + |bytes| <= buf.Length
      modifies buf
      ensures buf[..] == old(buf[..at]) + bytes + old(buf[at + |bytes|..]) && buf[at..at + |bytes|] == bytes
      ensures forall k :: 0 <= k < at || at + |bytes| <= k < buf.Length ==> buf[k] == old(buf[k])
    {
      forall k | 0 <= k < |bytes| {
        buf[at + k] := bytes[k];
      }
    }

    /** A one-byte TLV goes to position `at`. */
    method PutByteTlv(at: nat, tag: byte, value: int) returns (next: nat)
      requires at + HEADER + 1 <= buf.Length
      modifies buf
      ensures next == at + HEADER + 1
      ensures buf[..next] == old(buf[..at]) + EncodeOne(Tlv(tag, [Byte(value)]))
    {
      buf[at] := tag;
      Put(at + 1, Le16(1));
      buf[at + HEADER] := value % 256;
      next := at + HEADER + 1;
    }

    /** A string TLV goes to position `at`; `qstrcpy` adds a zero that is not counted. */
    method PutStringTlv(at: nat, tag: byte, s: CString) returns (next: nat)
      requires at + HEADER + |s| < buf.Length
      modifies buf
      ensures next == at + HEADER + |s|
      ensures buf[..next] == old(buf[..at]) + EncodeOne(Tlv(tag, s))
    {
      buf[at] := tag;
      Put(at + 1, Le16(|s|));
      Put(at + HEADER, s);
      buf[at + HEADER + |s|] := 0;
      next := at + HEADER + |s|;
    }

    /** After `k` steps of a composer: their bytes are in the buffer, and all will fit. */
    ghost predicate Written(parts: Parts, k: nat, at: nat, head: seq<byte>)
      reads this, buf
    {
      && Valid()
      && k <= |parts| && |head| + |Wire(parts)| <= buf.Length
      && at == |head| + |Wire(parts[..k])| <= buf.Length
      && buf[..at] == head + Wire(parts[..k])
    }

    /** After `k` parts a byte is still free. */
    ghost predicate RoomForZero(parts: Parts, k: nat, head: seq<byte>) {
      k <= |parts| && |head| + |Wire(parts[..k])| < WDM_DEFAULT_BUFSIZE
    }

    /** There is room for the zero when another part is still to come, or a byte is left over. */
    lemma RoomFor(parts: Parts, k: nat, m: nat, head: seq<byte>)
      requires Valid() && k <= m <= |parts| && |head| + |Wire(parts)| <= buf.Length
      requires if m < |parts| then parts[m].Some? else |head| + |Wire(parts)| < buf.Length
      ensures RoomForZero(parts, k, head)
    {
      WirePrefix(parts, k);
      if m < |parts| {
        WirePrefix(parts[..m], k);
        WirePrefix(parts, m + 1);
        assert parts[..m][..k] == parts[..k] && parts[..m + 1][..m] == parts[..m];
      }
    }

    lemma WrittenAtStart(parts: Parts, head: seq<byte>)
      requires Valid() && |head| + |Wire(parts)| <= buf.Length && buf[..|head|] == head
      ensures Written(parts, 0, |head|, head)
    {
      assert parts[..0] == [];
    }

    lemma WrittenAtEnd(parts: Parts, at: nat, head: seq<byte>)
      requires Written(parts, |parts|, at, head)
      ensures at == |head| + |Wire(parts)| <= buf.Length && buf[..at] == head + Wire(parts)
    {
      assert parts[..|parts|] == parts;
    }

    method PutString(ghost parts: Parts, ghost k: nat, at: nat, tag: byte, s: Option<CString>, ghost head: seq<byte>)
      returns (next: nat)
      requires Written(parts, k, at, head) && k < |parts| && parts[k] == StringPart(tag, s)
      requires s.Some? ==> RoomForZero(parts, k + 1, head)
      modifies buf
      ensures Written(parts, k + 1, next, head)
    {
      WirePrefix(parts, k + 1);
      assert parts[..k + 1][..k] == parts[..k];
      next := at;
      if s.Some? {
        next := PutStringTlv(at, tag, s.value);
      }
    }

    method PutByte(ghost parts: Parts, ghost k: nat, at: nat, tag: byte, value: int, present: bool,
                   ghost head: seq<byte>)
      returns (next: nat)
      requires Written(parts, k, at, head) && k < |parts|
      requires parts[k] == if present then BytePart(tag, value) else None
      modifies buf
      ensures Written(parts, k + 1, next, head)
    {
      WirePrefix(parts, k + 1);
      assert parts[..k + 1][..k] == parts[..k];
      next := at;
      if present {
        next := PutByteTlv(at, tag, value);
      }
    }

    /** The leading TLV of a modify-profile request. */
    method PutProfile(p: Profile, ghost head: seq<byte>) returns (at: nat)
      requires Valid() && Fits(ModifyProfile(p)) && head == buf[..PAYLOAD]
      modifies buf
      ensures at == PAYLOAD + HEADER + 2 && Written(ModifyParts(p), 1, at, head)
    {
      ghost var parts := ModifyParts(p);
      hide ModifyParts, Le16, Wire;
      ModifyPartsAre(p);
      FirstPart(parts, Tlv(0x01, [0, Byte(p.pdp)]));
      WirePrefix(parts, 1);
      buf[PAYLOAD] := 0x01;
      Put(PAYLOAD + 1, Le16(2));
      buf[PAYLOAD + HEADER] := 0x00;
      buf[PAYLOAD + HEADER + 1] := Byte(p.pdp);
      at := PAYLOAD + HEADER + 2;
      assert buf[PAYLOAD + 1..PAYLOAD + HEADER] == Le16(2);
      assert buf[..at] == head + ([0x01] + Le16(2) + [0, Byte(p.pdp)]);
      assert EncodeOne(Tlv(0x01, [0, Byte(p.pdp)])) == [0x01] + Le16(2) + [0, Byte(p.pdp)];
    }

    /** User name, password and authentication of a start-network request. */
    method PutAccount(ghost parts: Parts, at: nat, user: Option<CString>, password: Option<CString>, auth: int,
                      ghost head: seq<byte>) returns (next: nat)
      requires Written(parts, 2, at, head) && |parts| == 7
      requires parts[2] == StringPart(0x17, user) && parts[3] == StringPart(0x18, password)
      requires parts[4] == if user.Some? && password.Some? then BytePart(0x16, auth) else None
      requires RoomForZero(parts, 3, head) && RoomForZero(parts, 4, head)
      modifies buf
      ensures Written(parts, 5, next, head)
    {
      hide *;
      next := PutString(parts, 2, at, 0x17, user, head);
      next := PutString(parts, 3, next, 0x18, password, head);
      next := PutByte(parts, 4, next, 0x16, auth, user.Some? && password.Some?, head);
    }

    /** The account of a start-network request, with the carrier's own in its place. */
    method ChooseAccount(p: Profile, cdma: bool) returns (user: Option<CString>, password: Option<CString>, auth: int)
      ensures AccountOf(p, cdma) == Account(user, password, auth)
    {
      user, password, auth := p.user, p.password, p.auth;
      if cdma && (user.None? || user.value == []) && (password.None? || password.value == []) {
        user, password, auth := Some(CDMA_USER), Some(CDMA_PASSWORD), 2;
      }
    }

    /** Technology and APN come first. */
    method PutTechnology(ghost parts: Parts, at: nat, technology: int, apn: Option<CString>, ghost head: seq<byte>)
      returns (next: nat)
      requires Written(parts, 0, at, head) && |parts| == 7
      requires parts[0] == BytePart(0x30, technology) && parts[1] == StringPart(0x14, apn)
      requires RoomForZero(parts, 2, head)
      modifies buf
      ensures Written(parts, 2, next, head)
    {
      hide *;
      next := PutByte(parts, 0, at, 0x30, technology, true, head);
      next := PutString(parts, 1, next, 0x14, apn, head);
    }

    /** Address family and profile number come last. */
    method PutFamily(ghost parts: Parts, at: nat, family: int, pdp: int, cdma: bool, ghost head: seq<byte>)
      returns (next: nat)
      requires Written(parts, 5, at, head) && |parts| == 7
      requires parts[5] == BytePart(0x19, family)
      requires parts[6] == if pdp != 0 && !cdma then BytePart(0x31, pdp) else None
      modifies buf
      ensures Written(parts, 7, next, head)
    {
      hide *;
      next := PutByte(parts, 5, at, 0x19, family, true, head);
      next := PutByte(parts, 6, next, 0x31, pdp, pdp != 0 && !cdma, head);
    }

    /** An empty buffer in which the request will fit, every terminating zero included. */
    lemma RoomForStart(p: Profile, cdma: bool, head: seq<byte>)
      requires Valid() && Fits(StartNetwork(p, cdma)) && head == buf[..PAYLOAD]
      ensures var parts := StartNwParts(p, cdma);
              && Written(parts, 0, PAYLOAD, head)
              && RoomForZero(parts, 2, head) && RoomForZero(parts, 3, head) && RoomForZero(parts, 4, head)
    {
      var parts := StartNwParts(p, cdma);
      var a := AccountOf(p, cdma);
      StartNwPartsAre(p, cdma, a.user, a.password, a.auth);
      hide StartNwParts, AccountOf, Wire, RoomForZero, Written;
      WrittenAtStart(parts, head);
      RoomFor(parts, 2, 5, head);
      RoomFor(parts, 3, 5, head);
      RoomFor(parts, 4, 5, head);
    }

    /** `WdsStartNwInterfaceReq`: the length of its request, header included. */
    method WdsStartNwInterfaceReq(p: Profile, cdma: bool) returns (size: nat)
      requires Valid() && Fits(StartNetwork(p, cdma))
      modifies buf
      ensures size == 4 + |Wire(StartNwParts(p, cdma))|
      ensures buf[..PAYLOAD + size - 4] == old(buf[..PAYLOAD]) + Wire(StartNwParts(p, cdma))
    {
      hide Fits, StartNwParts, AccountOf, Written, RoomForZero, Wire, StringPart, BytePart;
      ghost var parts := StartNwParts(p, cdma);
      ghost var head := buf[..PAYLOAD];
      RoomForStart(p, cdma, head);
      var user, password, auth := ChooseAccount(p, cdma);
      StartNwPartsAre(p, cdma, user, password, auth);
      var at := PutTechnology(parts, PAYLOAD, if cdma then 2 else 1, if cdma then None else p.apn, head);
      at := PutAccount(parts, at, user, password, auth, head);
      at := PutFamily(parts, at, p.curIpFamily, p.pdp, cdma, head);
      WrittenAtEnd(parts, at, head);
      size := 4 + (at - PAYLOAD);
    }

    lemma RoomForAccess(parts: Parts, p: Profile, head: seq<byte>)
      requires Valid() && |head| + |Wire(parts)| <= buf.Length && |parts| == 6
      requires parts[5].Some? <==> p.user.Some? && p.password.Some?
      requires EndsInString(ModifyProfile(p)) ==> |head| + |Wire(parts)| < buf.Length
      ensures p.apn.Some? ==> RoomForZero(parts, 3, head)
      ensures p.user.Some? ==> RoomForZero(parts, 4, head)
      ensures p.password.Some? ==> RoomForZero(parts, 5, head)
    {
      if p.apn.Some? || p.user.Some? || p.password.Some? {
        var m := if p.user.Some? && p.password.Some? then 5 else 6;
        RoomFor(parts, 3, m, head);
        RoomFor(parts, 4, m, head);
        RoomFor(parts, 5, m, head);
      }
    }

    /** APN and user name of a modify-profile request. */
    method PutNames(ghost parts: Parts, at: nat, apn: Option<CString>, user: Option<CString>, ghost head: seq<byte>)
      returns (next: nat)
      requires Written(parts, 2, at, head) && |parts| == 6
      requires parts[2] == StringPart(0x14, apn) && parts[3] == StringPart(0x1B, user)
      requires (apn.Some? ==> RoomForZero(parts, 3, head)) && (user.Some? ==> RoomForZero(parts, 4, head))
      modifies buf
      ensures Written(parts, 4, next, head)
    {
      hide *;
      next := PutString(parts, 2, at, 0x14, apn, head);
      next := PutString(parts, 3, next, 0x1B, user, head);
    }

    /** Password and authentication. */
    method PutSecrets(ghost parts: Parts, at: nat, password: Option<CString>, auth: int, present: bool,
                      ghost head: seq<byte>)
      returns (next: nat)
      requires Written(parts, 4, at, head) && |parts| == 6
      requires parts[4] == StringPart(0x1C, password)
      requires parts[5] == if present then BytePart(0x1D, auth) else None
      requires password.Some? ==> RoomForZero(parts, 5, head)
      modifies buf
      ensures Written(parts, 6, next, head)
    {
      hide *;
      next := PutString(parts, 4, at, 0x1C, password, head);
      next := PutByte(parts, 5, next, 0x1D, auth, present, head);
    }

    /** `WdsModifyProfileSettingsReq`. */
    method WdsModifyProfileSettingsReq(p: Profile) returns (size: nat)
      requires Valid() && Fits(ModifyProfile(p))
      modifies buf
      ensures size == 4 + |Wire(ModifyParts(p))|
      ensures buf[..PAYLOAD + size - 4] == old(buf[..PAYLOAD]) + Wire(ModifyParts(p))
    {
      hide Fits, ModifyParts, PdpType, Written, RoomForZero, Wire, StringPart, BytePart;
      ghost var parts := ModifyParts(p);
      ghost var head := buf[..PAYLOAD];
      RoomForModify(p, head);
      var at := PutProfile(p, head);
      ModifyPartsAre(p);
      var pdpType := if p.enableIpv4 && p.enableIpv6 then 3 else if p.enableIpv6 then 2 else 0;
      PdpTypeIs(p);
      at := PutByte(parts, 1, at, 0x11, pdpType, true, head);
      at := PutNames(parts, at, p.apn, p.user, head);
      at := PutSecrets(parts, at, p.password, p.auth, p.user.Some? && p.password.Some?, head);
      WrittenAtEnd(parts, at, head);
      size := 9 + (at - (PAYLOAD + HEADER + 2));
    }

    lemma PdpTypeIs(p: Profile)
      ensures PdpType(p) == if p.enableIpv4 && p.enableIpv6 then 3 else if p.enableIpv6 then 2 else 0
    {
    }

    lemma RoomForModify(p: Profile, head: seq<byte>)
      requires Valid() && Fits(ModifyProfile(p)) && head == buf[..PAYLOAD]
      ensures p.apn.Some? ==> RoomForZero(ModifyParts(p), 3, head)
      ensures p.user.Some? ==> RoomForZero(ModifyParts(p), 4, head)
      ensures p.password.Some? ==> RoomForZero(ModifyParts(p), 5, head)
    {
      ModifyPartsAre(p);
      hide ModifyParts, Wire, RoomForZero;
      RoomForAccess(ModifyParts(p), p, head);
    }

    /** `ComposeQMUXMsg`; a service without a client id gets no message. */
    method ComposeQmuxMsg(qmiType: byte, clientId: int, msgType: nat, body: Body) returns (msg: Option<seq<byte>>)
      requires Valid() && msgType < TWO_16 && Fits(body)
      modifies this, buf
      ensures Valid()
      ensures clientId == 0 ==> msg == None && transactionId == old(transactionId)
      ensures clientId != 0 ==> transactionId == if old(transactionId) == 0xFFFF then 1 else old(transactionId) + 1
      ensures clientId != 0 ==> msg == Some(Message(qmiType, clientId, transactionId, msgType, Wire(PartsOf(body))))
    {
      hide Wire;
      if clientId == 0 {
        return None;
      }
      transactionId := transactionId + 1;
      if transactionId > 0xFFFF {
        transactionId := 1;
      }
      var length := 0;
      match body {
        case Nothing =>
          WireNothing();
        case StartNetwork(p, cdma) =>
          var size := WdsStartNwInterfaceReq(p, cdma);
          length := size - 4;
        case ModifyProfile(p) =>
          var size := WdsModifyProfileSettingsReq(p);
          length := size - 4;
      }
      ghost var wire := Wire(PartsOf(body));
      assert buf[PAYLOAD..PAYLOAD + length] == wire;
      WriteHeaders(qmiType, clientId, msgType, length);
      msg := Some(buf[..length + PAYLOAD - 1 + 1]);
    }

    method WriteHeaders(qmiType: byte, clientId: int, msgType: nat, length: nat)
      requires Valid() && msgType < TWO_16 && PAYLOAD + length <= WDM_DEFAULT_BUFSIZE
      modifies buf
      ensures buf[..PAYLOAD + length]
              == Message(qmiType, clientId, transactionId, msgType, old(buf[PAYLOAD..PAYLOAD + length]))
    {
      hide Le16;
      ghost var payload := buf[PAYLOAD..PAYLOAD + length];
      ghost var tail := buf[PAYLOAD..];
      assert payload == tail[..length];
      WriteQmiHeader(qmiType, clientId, length);
      WriteMuxHeader(msgType, length);
      assert buf[PAYLOAD..PAYLOAD + length] == buf[PAYLOAD..][..length];
      ThreeParts(buf[..], 6, PAYLOAD, PAYLOAD + length);
      assert buf[..PAYLOAD + length] == buf[..][..PAYLOAD + length] && buf[..6] == buf[..][..6]
             && buf[6..PAYLOAD] == buf[..][6..PAYLOAD];
    }

    method WriteQmiHeader(qmiType: byte, clientId: int, length: nat)
      requires Valid() && PAYLOAD + length <= WDM_DEFAULT_BUFSIZE
      modifies buf
      ensures buf[..6] == [0x01] + Le16(length + PAYLOAD - 1) + [0x00, qmiType, Byte(clientId)]
      ensures buf[6..] == old(buf[6..]) && buf[PAYLOAD..] == old(buf[PAYLOAD..])
    {
      hide Le16;
      ghost var size := Le16(length + PAYLOAD - 1);
      buf[0] := 0x01;
      Put(1, Le16(length + PAYLOAD - 1));
      assert buf[1] == buf[..][1] == size[0] && buf[2] == buf[..][2] == size[1];
      buf[3] := 0x00;
      buf[4] := qmiType;
      buf[5] := clientId % 256;
      assert buf[..6] == [buf[0], buf[1], buf[2], buf[3], buf[4], buf[5]];
    }

    method WriteMuxHeader(msgType: nat, length: nat)
      requires Valid() && msgType < TWO_16 && length <= WDM_DEFAULT_BUFSIZE
      modifies buf
      ensures buf[6..PAYLOAD] == [0x00] + Le16(transactionId) + Le16(msgType) + Le16(length)
      ensures buf[..6] == old(buf[..6]) && buf[PAYLOAD..] == old(buf[PAYLOAD..])
    {
      hide Le16;
      buf[6] := 0x00;
      ghost var tid, kind, size := Le16(transactionId), Le16(msgType), Le16(length);
      Put(7, Le16(transactionId));
      assert buf[7] == buf[7..9][0] == tid[0] && buf[8] == buf[7..9][1] == tid[1];
      Put(9, Le16(msgType));
      assert buf[9] == buf[9..11][0] == kind[0] && buf[10] == buf[9..11][1] == kind[1];
      Put(11, Le16(length));
      assert buf[11] == buf[11..13][0] == size[0] && buf[12] == buf[11..13][1] == size[1];
    }
  }

  lemma ThreeParts(s: seq<byte>, a: nat, b: nat, c: nat)
    requires a <= b <= c <= |s|
    ensures s[..c] == s[..a] + s[a..b] + s[b..c]
  {
  }

  lemma MessagePayload(qmiType: byte, clientId: int, tid: nat, msgType: nat, payload: seq<byte>)
    requires tid < TWO_16 && msgType < TWO_16 && |payload| <= WDM_DEFAULT_BUFSIZE
    ensures var msg := Message(qmiType, clientId, tid, msgType, payload);
            |msg| == PAYLOAD + |payload| && msg[PAYLOAD..] == payload
  {
    hide Le16;
  }

  lemma FieldOnWire(ts: seq<Tlv>, tag: byte)
    requires FirstOf(ts, tag) < |ts|
    ensures var wire, p := Encode(ts), Offset(ts, FirstOf(ts, tag));
            && p + HEADER <= |wire| && p + HEADER + FromLe16(wire[p + 1..p + HEADER]) <= |wire|
            && Some(wire[p + HEADER..p + HEADER + FromLe16(wire[p + 1..p + HEADER])]) == Field(ts, tag)
  {
    hide Encode, FromLe16;
    EncodedAt(ts, FirstOf(ts, tag), []);
    assert Encode(ts) + [] == Encode(ts);
  }

  /** Composing a request for any service with a client id and looking a type up in it gives
      the field of that type. */
  method FindInComposed(qmiType: byte, clientId: int, msgType: nat, body: Body, tag: byte)
    returns (value: Option<seq<byte>>)
    requires msgType < TWO_16 && Fits(body)
    ensures value == if clientId == 0 then None else Field(Present(PartsOf(body)), tag)
  {
    hide Encode, Message, Wire, PartsOf, Present, FromLe16;
    var composer := new Composer();
    var msg := composer.ComposeQmuxMsg(qmiType, clientId, msgType, body);
    if msg.None? {
      return None;
    }
    MessagePayload(qmiType, clientId, composer.transactionId, msgType, Wire(PartsOf(body)));
    var payload := msg.value[PAYLOAD..];
    WireIsEncoding(PartsOf(body));
    value := ReadField(payload, tag, Present(PartsOf(body)));
  }

  /** How the callers of `GetTLV` read a value. */
  method ReadField(payload: seq<byte>, tag: byte, ghost ts: seq<Tlv>) returns (value: Option<seq<byte>>)
    requires |payload| < TWO_16 && payload == Encode(ts)
    ensures value == Field(ts, tag)
  {
    hide Encode, FromLe16;
    assert Encode(ts) + [] == payload;
    SplitIsUnique(ts, []);
    var at := GetTlv(payload, tag);
    if at.Nowhere? {
      return None;
    }
    FieldOnWire(ts, tag);
    var p := at.p;
    value := Some(payload[p + HEADER..p + HEADER + FromLe16(payload[p + 1..p + HEADER])]);
  }

  lemma StartNwPartsAre(p: Profile, cdma: bool, user: Option<CString>, password: Option<CString>, auth: int)
    requires AccountOf(p, cdma) == Account(user, password, auth)
    ensures var parts := StartNwParts(p, cdma);
            && |parts| == 7
            && parts[0] == BytePart(0x30, if cdma then 2 else 1)
            && parts[1] == StringPart(0x14, if cdma then None else p.apn)
            && parts[2] == StringPart(0x17, user) && parts[3] == StringPart(0x18, password)
            && parts[4] == (if user.Some? && password.Some? then BytePart(0x16, auth) else None)
            && parts[5] == BytePart(0x19, p.curIpFamily)
            && parts[6] == (if p.pdp != 0 && !cdma then BytePart(0x31, p.pdp) else None)
  {
  }

  lemma ModifyPartsAre(p: Profile)
    ensures var parts := ModifyParts(p);
            && |parts| == 6
            && parts[0] == Some(Tlv(0x01, [0, Byte(p.pdp)])) && parts[1] == BytePart(0x11, PdpType(p))
            && parts[2] == StringPart(0x14, p.apn)
            && parts[3] == StringPart(0x1B, p.user) && parts[4] == StringPart(0x1C, p.password)
            && parts[5] == (if p.user.Some? && p.password.Some? then BytePart(0x1D, p.auth) else None)
  {
  }

  lemma WireNothing()
    ensures Wire([]) == []
  {
  }

  lemma FirstPart(parts: Parts, t: Tlv)
    requires parts != [] && parts[0] == Some(t)
    ensures Wire(parts[..1]) == EncodeOne(t)
  {
    assert parts[..1][..0] == [];
    assert Wire(parts[..1]) == [] + EncodeOne(t);
  }
}
