/** The USB-over-TCP transport, as the writer runs it: `qtcp_write` and the loop of
    `qusb_noblock_write`, which frames the rest of a payload anew after a short write. */
module TcpWriter {
  import opened Bytes
  import opened Sequences
  import opened TcpLink

  /** What has gone out, and how many bytes the socket will take at each write; a zero is a
      poll or a write that fails, and after the last number it takes everything. */
  datatype Sender = Sender(wire: seq<byte>, room: seq<nat>)

  function Header(n: nat): (h: seq<byte>)
    requires n < TWO_32
    ensures |h| == HEADER
  {
    Le32(VERSION) + Le32(n)
  }

  function Taken(s: Sender, k: nat): (n: nat)
    ensures n <= k
  {
    if s.room == [] then k else Min(k, s.room[0])
  }

  function Sent(s: Sender, bytes: seq<byte>): Sender {
    Sender(s.wire + bytes[..Taken(s, |bytes|)], if s.room == [] then [] else s.room[1..])
  }

  /** How much of a body goes out before a write takes nothing. */
  function BodyTaken(s: Sender, body: seq<byte>): (n: nat)
    ensures n <= |body|
    decreases |body|
  {
    var n := Taken(s, |body|);
    if n == 0 then 0 else n + BodyTaken(Sent(s, body), body[n..])
  }

  function BodySent(s: Sender, body: seq<byte>): Sender
    decreases |body|
  {
    var n := Taken(s, |body|);
    if body == [] then s else if n == 0 then Sent(s, body) else BodySent(Sent(s, body), body[n..])
  }

  predicate HeaderGoes(s: Sender) { Taken(s, HEADER) == HEADER }

  /** What `qtcp_write` leaves behind, and what it returns. */
  function Write(s: Sender, payload: Payload): Sender {
    var t := Sent(s, Header(|payload|));
    if HeaderGoes(s) then BodySent(t, payload) else t
  }

  function Written(s: Sender, payload: Payload): (n: nat)
    ensures n <= |payload|
  {
    if HeaderGoes(s) then BodyTaken(Sent(s, Header(|payload|)), payload) else 0
  }

  /** Header and body go out whole. */
  predicate Whole(s: Sender, payload: Payload) {
    HeaderGoes(s) && Written(s, payload) == |payload|
  }

  lemma TakeTwice(body: seq<byte>, n: nat, m: nat)
    requires n + m <= |body|
    ensures body[..n] + body[n..][..m] == body[..n + m]
  {
  }

  lemma {:induction false} BodySentIs(s: Sender, body: seq<byte>)
    ensures BodySent(s, body).wire == s.wire + body[..BodyTaken(s, body)]
    decreases |body|
  {
    var n := Taken(s, |body|);
    if body == [] || n == 0 {
      assert body[..0] == [] && s.wire + [] == s.wire;
    } else {
      BodySentIs(Sent(s, body), body[n..]);
      var m := BodyTaken(Sent(s, body), body[n..]);
      TakeTwice(body, n, m);
      Assoc(s.wire, body[..n], body[n..][..m]);
    }
  }

  /** What goes out at one `qtcp_write`. */
  lemma WireAfter(s: Sender, payload: Payload)
    ensures HeaderGoes(s) ==> Write(s, payload).wire == s.wire + (Header(|payload|) + payload[..Written(s, payload)])
    ensures !HeaderGoes(s) ==> |Write(s, payload).wire| < |s.wire| + HEADER
  {
    hide Header, BodySent, BodyTaken;
    var h := Header(|payload|);
    if HeaderGoes(s) {
      assert h[..HEADER] == h;
      BodySentIs(Sent(s, h), payload);
      Assoc(s.wire, h, payload[..Written(s, payload)]);
    }
  }

  /** The wire has grown by the payload's frame exactly if the write was whole. */
  lemma WholeIff(s: Sender, payload: Payload)
    ensures Whole(s, payload) <==> Write(s, payload).wire == s.wire + Frame(payload)
    ensures !Whole(s, payload) ==> |Write(s, payload).wire| < |s.wire| + |Frame(payload)|
  {
    hide Le32, BodySent, BodyTaken, Write, Written;
    WireAfter(s, payload);
    assert payload[..|payload|] == payload;
  }

  // ---------------------------------------------------------------------------
  // Several payloads
  // ---------------------------------------------------------------------------

  function AfterAll(s: Sender, ps: seq<Payload>): Sender {
    if ps == [] then s
    else if AllWhole(s, ps[..|ps| - 1]) then Write(AfterAll(s, ps[..|ps| - 1]), ps[|ps| - 1])
    else AfterAll(s, ps[..|ps| - 1])
  }

  predicate AllWhole(s: Sender, ps: seq<Payload>) {
    ps != [] ==> AllWhole(s, ps[..|ps| - 1]) && Whole(AfterAll(s, ps[..|ps| - 1]), ps[|ps| - 1])
  }

  lemma {:induction false} AllWholeIff(s: Sender, ps: seq<Payload>)
    ensures AllWhole(s, ps) <==> AfterAll(s, ps).wire == s.wire + Stream(ps)
    ensures !AllWhole(s, ps) ==> |AfterAll(s, ps).wire| < |s.wire| + |Stream(ps)|
  {
    if ps == [] {
      assert s.wire + Stream(ps) == s.wire;
    } else {
      hide Write, Whole, Frame;
      var before, p := ps[..|ps| - 1], ps[|ps| - 1];
      AllWholeIff(s, before);
      assert before + [p] == ps;
      StreamSnoc(before, p);
      if AllWhole(s, before) {
        WholeIff(AfterAll(s, before), p);
        Assoc(s.wire, Stream(before), Frame(p));
      }
    }
  }

  lemma {:induction false} StreamSnoc(ps: seq<Payload>, p: Payload)
    ensures Stream(ps + [p]) == Stream(ps) + Frame(p)
  {
    hide Frame;
    if ps == [] {
      assert [p][1..] == [] && ps + [p] == [p];
      assert Stream([p]) == Frame(p) + Stream([]);
    } else {
      assert (ps + [p])[1..] == ps[1..] + [p];
      StreamSnoc(ps[1..], p);
      Assoc(Frame(ps[0]), Stream(ps[1..]), Frame(p));
    }
  }

  // ---------------------------------------------------------------------------
  // qusb_noblock_write
  // ---------------------------------------------------------------------------

  /** The poll before a write fails. */
  predicate Blocked(s: Sender) { s.room != [] && s.room[0] == 0 }

  /** The loop: `qtcp_write` with what is left, until `min` bytes have gone. */
  function Pushed(s: Sender, rest: Payload, min: nat): (r: (Sender, nat))
    ensures r.1 <= |rest|
    decreases min
  {
    if min == 0 then (s, 0)
    else if Blocked(s) then (s.(room := s.room[1..]), 0)
    else
      var n := Written(s, rest);
      if n == 0 then (Write(s, rest), 0)
      else
        var more := Pushed(Write(s, rest), rest[n..], Less(min, n));
        (more.0, n + more.1)
  }

  lemma PushNothing(s: Sender, rest: Payload)
    ensures Pushed(s, rest, 0) == (s, 0)
  {
  }

  lemma PushBlocked(s: Sender, rest: Payload, min: nat)
    requires min > 0 && Blocked(s)
    ensures Pushed(s, rest, min) == (s.(room := s.room[1..]), 0)
  {
  }

  lemma PushStep(s: Sender, rest: Payload, min: nat)
    requires min > 0 && !Blocked(s)
    ensures var n := Written(s, rest);
            && (n == 0 ==> Pushed(s, rest, min) == (Write(s, rest), 0))
            && (n > 0 ==>
                  && Pushed(s, rest, min).0 == Pushed(Write(s, rest), rest[n..], Less(min, n)).0
                  && Pushed(s, rest, min).1 == n + Pushed(Write(s, rest), rest[n..], Less(min, n)).1)
  {
    hide Write, Written;
  }

  /** Every byte that the loop counts has gone out, and a header for every write. */
  lemma {:induction false} PushedLength(s: Sender, rest: Payload, min: nat)
    ensures var r := Pushed(s, rest, min);
            |r.0.wire| >= |s.wire| + r.1 + (if r.1 > 0 then HEADER else 0) && s.wire <= r.0.wire
    decreases min
  {
    hide Write, Written;
    if min > 0 && !Blocked(s) {
      WireAfter(s, rest);
      WireGrows(s, rest);
      var n := Written(s, rest);
      if n > 0 {
        WrittenNeedsHeader(s, rest);
        PushedLength(Write(s, rest), rest[n..], Less(min, n));
      }
    }
  }

  lemma WrittenNeedsHeader(s: Sender, payload: Payload)
    ensures Written(s, payload) > 0 ==> HeaderGoes(s)
  {
  }

  lemma WireGrows(s: Sender, payload: Payload)
    ensures s.wire <= Write(s, payload).wire
  {
    hide Header, BodySent, BodyTaken;
    WireAfter(s, payload);
  }

  /** When the loop reports a whole payload, the wire holds its frame exactly if the first
      `qtcp_write` was whole; after a short one the rest has got a header of its own. */
  lemma PushedIsFrameIff(s: Sender, payload: Payload)
    requires payload != [] && Pushed(s, payload, |payload|).1 == |payload|
    ensures Pushed(s, payload, |payload|).0.wire == s.wire + Frame(payload) <==> Whole(s, payload)
    ensures !Whole(s, payload) ==>
              0 < Written(s, payload) < |payload|
              && s.wire + (Header(|payload|) + payload[..Written(s, payload)]) + Header(|payload| - Written(s, payload))
                 <= Pushed(s, payload, |payload|).0.wire
  {
    hide Write, Header, Written;
    var n := Written(s, payload);
    WireAfter(s, payload);
    WholeIff(s, payload);
    WrittenNeedsHeader(s, payload);
    if n < |payload| {
      HeaderFollows(Write(s, payload), payload[n..], |payload| - n);
      PushedLength(Write(s, payload), payload[n..], |payload| - n);
      WrittenAll(s, payload);
    } else {
      WrittenAll(s, payload);
    }
  }

  lemma WrittenAll(s: Sender, payload: Payload)
    ensures Whole(s, payload) <==> HeaderGoes(s) && Written(s, payload) == |payload|
    ensures |Header(|payload|)| + |payload| == |Frame(payload)|
  {
    hide Le32;
  }

  lemma HeaderFollows(s: Sender, rest: Payload, min: nat)
    requires min > 0 && Pushed(s, rest, min).1 > 0
    ensures s.wire + Header(|rest|) <= Pushed(s, rest, min).0.wire
  {
    hide Write, Written, Header;
    var n := Written(s, rest);
    WireAfter(s, rest);
    WrittenNeedsHeader(s, rest);
    PushedLength(Write(s, rest), rest[n..], Less(min, n));
    Assoc(s.wire, Header(|rest|), rest[..n]);
  }

  // ---------------------------------------------------------------------------
  // The writer
  // ---------------------------------------------------------------------------

  class Writer {
    var wire: seq<byte>
    var room: seq<nat>

    ghost function Value(): Sender
      reads this
    {
      Sender(wire, room)
    }

    constructor (room: seq<nat>)
      ensures Value() == Sender([], room)
    {
      wire, this.room := [], room;
    }

    method Send(bytes: seq<byte>) returns (n: nat)
      modifies this
      ensures n == Taken(old(Value()), |bytes|) && Value() == Sent(old(Value()), bytes)
    {
      n := |bytes|;
      if room != [] {
        n := if room[0] < n then room[0] else n;
        room := room[1..];
      }
      wire := wire + bytes[..n];
    }

    /** `qtcp_write`; `headed` tells a header that went out whole. */
    method QtcpWrite(payload: Payload) returns (cur: nat, headed: bool)
      modifies this
      ensures cur == Written(old(Value()), payload) && Value() == Write(old(Value()), payload)
      ensures headed == HeaderGoes(old(Value()))
    {
      hide Le32;
      cur := 0;
      var n := Send(Header(|payload|));
      headed := n == HEADER;
      if !headed {
        return;
      }
      ghost var t := Value();
      assert payload[0..] == payload;
      while cur < |payload|
        invariant 0 <= cur <= |payload|
        invariant cur + BodyTaken(Value(), payload[cur..]) == BodyTaken(t, payload)
        invariant BodySent(Value(), payload[cur..]) == BodySent(t, payload)
        decreases |payload| - cur
      {
        var taken := Send(payload[cur..]);
        if taken == 0 {
          break;
        }
        assert payload[cur..][taken..] == payload[cur + taken..];
        cur := cur + taken;
      }
    }

    /** The loop of `qusb_noblock_write` on a TCP socket. */
    method QusbNoblockWrite(payload: Payload, minSize: nat) returns (cur: nat)
      modifies this
      ensures var min := if minSize == 0 then 1 else minSize;
              cur == Pushed(old(Value()), payload, min).1 && Value() == Pushed(old(Value()), payload, min).0
    {
      hide Write, Written, Pushed;
      var min := if minSize == 0 then 1 else minSize;
      cur := 0;
      ghost var s := Value();
      assert payload[0..] == payload;
      while cur < min
        invariant 0 <= cur <= |payload|
        invariant Pushed(s, payload, min).1 == cur + Pushed(Value(), payload[cur..], Less(min, cur)).1
        invariant Pushed(s, payload, min).0 == Pushed(Value(), payload[cur..], Less(min, cur)).0
        decreases min - cur
      {
        if room != [] && room[0] == 0 {
          PushBlocked(Value(), payload[cur..], Less(min, cur));
          room := room[1..];
          break;
        }
        ghost var m := Less(min, cur);
        PushStep(Value(), payload[cur..], m);
        var taken, headed := QtcpWrite(payload[cur..]);
        if taken == 0 {
          break;
        }
        assert payload[cur..][taken..] == payload[cur + taken..] && Less(m, taken) == Less(min, cur + taken);
        cur := cur + taken;
      }
      PushNothing(Value(), payload[cur..]);
    }

    /** Payloads written one after the other: success means that the wire holds their stream,
        and failure that it does not. */
    method WriteAll(ps: seq<Payload>) returns (ok: bool)
      requires wire == []
      modifies this
      ensures ok == AllWhole(old(Value()), ps) && (ok <==> wire == Stream(ps))
    {
      ghost var s := Value();
      ok := true;
      for k := 0 to |ps|
        invariant ok == AllWhole(s, ps[..k]) && Value() == AfterAll(s, ps[..k])
      {
        hide Write, Written, HeaderGoes;
        assert ps[..k + 1][..k] == ps[..k];
        if ok {
          var cur, headed := QtcpWrite(ps[k]);
          ok := headed && cur == |ps[k]|;
        }
      }
      assert ps[..|ps|] == ps;
      AllWholeIff(s, ps);
      assert [] + Stream(ps) == Stream(ps);
    }
  }
}
