/** The far end of the USB-over-TCP transport (`usb2tcp_main`), and what it makes of short
    writes.

    It reads frame by frame and hands each payload to the modem. A header with a wrong tag is
    skipped; a negative length ends the connection. After a short write the rest of a payload
    comes with a header of its own. Whether that ever shows is stated exactly. */
module Usb2Tcp {
  import opened Bytes
  import opened Sequences
  import opened TcpLink
  import opened TcpWriter

  // ---------------------------------------------------------------------------
  // The peer
  // ---------------------------------------------------------------------------

  function Announced(wire: seq<byte>): int
    requires |wire| >= HEADER
  {
    Signed(FromLe32(wire[4..8]))
  }

  /** What reaches the modem of all that arrives. */
  function Forwarded(wire: seq<byte>): seq<byte>
    decreases |wire|
  {
    if |wire| < HEADER then []
    else if !GoodHeader(wire) then Forwarded(wire[HEADER..])
    else
      var n := Announced(wire);
      if n < 0 || |wire| < HEADER + n then [] else wire[HEADER..HEADER + n] + Forwarded(wire[HEADER + n..])
  }

  class Peer {
    var incoming: seq<byte>
    var forwarded: seq<byte>

    constructor (incoming: seq<byte>)
      ensures this.incoming == incoming && forwarded == []
    {
      this.incoming, forwarded := incoming, [];
    }

    /** `noblock_full_read` waits for all that is asked for; it gets less when nothing more comes. */
    method FullRead(size: int) returns (got: seq<byte>)
      modifies `incoming
      ensures size <= 0 ==> got == [] && incoming == old(incoming)
      ensures size > 0 ==>
                var n := Min(size, |old(incoming)|); got == old(incoming)[..n] && incoming == old(incoming)[n..]
    {
      var n := if size <= 0 then 0 else Min(size, |incoming|);
      got := incoming[..n];
      incoming := incoming[n..];
    }

    /** The client's side of the loop of `usb2tcp_main`, until it hangs up. */
    method Serve()
      modifies this
      ensures forwarded == old(forwarded) + Forwarded(old(incoming))
    {
      ghost var wire, before := incoming, forwarded;
      while true
        invariant before + Forwarded(wire) == forwarded + Forwarded(incoming)
        decreases |incoming|
      {
        ghost var here := incoming;
        var tlv := FullRead(HEADER);
        if |tlv| != HEADER {
          return;
        }
        assert tlv[..4] == here[..4] && tlv[4..8] == here[4..8];
        if FromLe32(tlv[..4]) != VERSION {
          continue;
        }
        var size := Signed(FromLe32(tlv[4..8]));
        var data := FullRead(size);
        if |data| != size {
          return;
        }
        if size > 0 {
          assert here[HEADER..][..size] == here[HEADER..HEADER + size];
          assert here[HEADER..][size..] == here[HEADER + size..];
        } else {
          assert here[HEADER..HEADER] == [];
        }
        forwarded := forwarded + data;
      }
    }
  }

  // ---------------------------------------------------------------------------
  // Streams
  // ---------------------------------------------------------------------------

  lemma HeaderReads(n: nat, tail: seq<byte>)
    requires n < 0x8000_0000
    ensures var wire := Header(n) + tail; GoodHeader(wire) && Announced(wire) == n && wire[HEADER..] == tail
  {
    hide Le32, FromLe32;
    var wire := Header(n) + tail;
    assert wire[..4] == Le32(VERSION) && wire[4..8] == Le32(n);
    Le32RoundTrip(VERSION);
    Le32RoundTrip(n);
  }

  /** A whole frame is forwarded, and then what follows it. */
  lemma FrameForwarded(p: Payload, tail: seq<byte>)
    ensures Forwarded(Header(|p|) + (p + tail)) == p + Forwarded(tail)
  {
    var wire := Header(|p|) + (p + tail);
    HeaderReads(|p|, p + tail);
    hide Header, GoodHeader, Announced;
    assert wire[HEADER..HEADER + |p|] == p && wire[HEADER + |p|..] == tail;
  }

  lemma {:induction false} StreamForwarded(ps: seq<Payload>, tail: seq<byte>)
    ensures Forwarded(Stream(ps) + tail) == Concat(ps) + Forwarded(tail)
  {
    hide Forwarded, Le32;
    if ps == [] {
      assert Stream(ps) + tail == tail;
    } else {
      var p, rest := ps[0], Stream(ps[1..]);
      StreamForwarded(ps[1..], tail);
      FrameForwarded(p, rest + tail);
      assert Stream(ps) + tail == Header(|p|) + (p + (rest + tail));
      Assoc(p, Concat(ps[1..]), Forwarded(tail));
    }
  }

  // ---------------------------------------------------------------------------
  // What the loop leaves on the wire
  // ---------------------------------------------------------------------------

  /** There are `k` headers too many on the wire. */
  lemma {:induction false} PushedHeaders(s: Sender, rest: Payload) returns (k: nat)
    requires rest != [] && Pushed(s, rest, |rest|).1 == |rest|
    ensures var wire := Pushed(s, rest, |rest|).0.wire;
            && |wire| == |s.wire| + HEADER * (k + 1) + |rest|
            && s.wire + Header(|rest|) <= wire && (k == 0 <==> Whole(s, rest))
    decreases |rest|
  {
    hide Write, Written, Header, HeaderGoes;
    var n := Written(s, rest);
    WrittenNeedsHeader(s, rest);
    WireAfter(s, rest);
    HeaderFollows(s, rest, |rest|);
    if n == |rest| {
      k := 0;
    } else {
      k := PushedHeaders(Write(s, rest), rest[n..]);
      k := k + 1;
    }
  }

  /** What a loop has added to the wire. */
  function Added(s: Sender, payload: Payload): (x: seq<byte>)
    requires payload != [] && Pushed(s, payload, |payload|).1 == |payload|
    ensures |x| >= HEADER + |payload|
  {
    PushedLength(s, payload, |payload|);
    Pushed(s, payload, |payload|).0.wire[|s.wire|..]
  }

  lemma AddedIs(s: Sender, payload: Payload) returns (k: nat)
    requires payload != [] && Pushed(s, payload, |payload|).1 == |payload|
    ensures var x := Added(s, payload);
            && Pushed(s, payload, |payload|).0.wire == s.wire + x
            && |x| == HEADER * (k + 1) + |payload| && Header(|payload|) <= x
            && (k == 0 <==> Whole(s, payload)) && (x == Frame(payload) <==> Whole(s, payload))
            && (!Whole(s, payload) ==>
                  var n := Written(s, payload);
                  0 < n < |payload| && Header(|payload|) + payload[..n] + Header(|payload| - n) <= x)
  {
    hide Pushed, Written, Whole, Header, Frame;
    PushedLength(s, payload, |payload|);
    k := PushedHeaders(s, payload);
    PushedIsFrameIff(s, payload);
    var wire, x, n := Pushed(s, payload, |payload|).0.wire, Added(s, payload), Written(s, payload);
    assert wire == s.wire + x;
    assert x == Frame(payload) <==> wire == s.wire + Frame(payload);
    Behind(s.wire, Header(|payload|), wire);
    if !Whole(s, payload) {
      Assoc(s.wire, Header(|payload|) + payload[..n], Header(|payload| - n));
      Behind(s.wire, Header(|payload|) + payload[..n] + Header(|payload| - n), wire);
    }
  }

  lemma Behind(a: seq<byte>, b: seq<byte>, c: seq<byte>)
    requires a + b <= c
    ensures b <= c[|a|..]
  {
    assert b == (a + b)[|a|..];
  }

  // ---------------------------------------------------------------------------
  // What the peer makes of it
  // ---------------------------------------------------------------------------

  /** Headers, each of which the peer skips or takes for an empty frame. */
  predicate Harmless(r: seq<byte>)
    decreases |r|
  {
    r == [] || (|r| >= HEADER && (!GoodHeader(r) || Announced(r) == 0) && Harmless(r[HEADER..]))
  }

  /** `x` begins with the right header and so with a frame of the right length: that is read. */
  lemma FrontForwarded(x: seq<byte>, size: nat, next: seq<byte>)
    requires size < 0x8000_0000 && Header(size) <= x && |x| >= HEADER + size
    ensures Forwarded(x + next) == x[HEADER..HEADER + size] + Forwarded(x[HEADER + size..] + next)
  {
    hide Header, Forwarded;
    var front, rest := x[HEADER..HEADER + size], x[HEADER + size..];
    assert x == Header(size) + front + rest;
    assert x + next == Header(size) + (front + (rest + next));
    FrameForwarded(front, rest + next);
  }

  lemma SameHeader(r: seq<byte>, next: seq<byte>)
    requires |r| >= HEADER
    ensures GoodHeader(r + next) == GoodHeader(r) && Announced(r + next) == Announced(r)
    ensures (r + next)[HEADER..] == r[HEADER..] + next
  {
    hide FromLe32;
    assert (r + next)[..4] == r[..4] && (r + next)[4..8] == r[4..8];
  }

  lemma {:induction false} HarmlessForwarded(r: seq<byte>, next: seq<byte>)
    requires Harmless(r)
    ensures Forwarded(r + next) == Forwarded(next)
    decreases |r|
  {
    if r == [] {
      assert r + next == next;
    } else {
      SameHeader(r, next);
      hide GoodHeader, Announced;
      HarmlessForwarded(r[HEADER..], next);
      assert (r + next)[HEADER..HEADER] == [];
    }
  }

  lemma StreamOfByte(x: byte)
    ensures Stream([[x]]) != [] && Stream([[x]])[0] == 0x78 && |Stream([[x]])| == HEADER + 1 && Concat([[x]]) == [x]
  {
    StreamOfOne(x);
  }

  lemma NoStream()
    ensures Stream([]) == [] && Concat<byte>([]) == []
  {
  }

  /** After anything else, some stream is not forwarded as it is. */
  lemma {:induction false} Derail(r: seq<byte>) returns (qs: seq<Payload>)
    requires |r| % HEADER == 0 && !Harmless(r)
    ensures Forwarded(r + Stream(qs)) != Concat(qs)
    decreases |r|
  {
    if !GoodHeader(r) || Announced(r) == 0 {
      qs := Derail(r[HEADER..]);
      SameHeader(r, Stream(qs));
      assert (r + Stream(qs))[HEADER..HEADER] == [];
    } else if Announced(r) > 0 && |r| >= HEADER + Announced(r) {
      qs := [];
      NoStream();
      assert r + [] == r;
    } else {
      qs := [[0]];
      StreamOfByte(0);
      SameHeader(r, Stream(qs));
      hide Stream, Concat, GoodHeader, Announced;
      AcrossHeader(r, Stream(qs));
    }
  }

  /** A frame that takes in the beginning of another stream. */
  lemma AcrossHeader(r: seq<byte>, next: seq<byte>)
    requires |r| >= HEADER && |r| % HEADER == 0 && GoodHeader(r) && |next| == HEADER + 1 && next[0] == 0x78
    requires Announced(r) < 0 || |r| < HEADER + Announced(r)
    ensures Forwarded(r + next) != [0]
  {
    SameHeader(r, next);
    var all, n := r + next, Announced(r);
    hide GoodHeader, Announced;
    if 0 <= n && |all| >= HEADER + n {
      assert all[HEADER..HEADER + n] == (r[HEADER..] + next)[..n];
      assert n > 0 && (|r| == HEADER ==> all[HEADER] == next[0]);
    }
  }

  /** The short write never shows: the payload is read back, and what is left over on the wire
      are headers that the peer skips or takes for empty frames. */
  predicate Unnoticed(x: seq<byte>, payload: Payload)
    requires |x| >= HEADER + |payload|
  {
    x[HEADER..HEADER + |payload|] == payload && Harmless(x[HEADER + |payload|..])
  }

  /** When the write loop reports the whole payload, the modem gets it and all that is ever
      written after it as it was meant exactly if the first `qtcp_write` was whole, or the
      short one never shows. */
  lemma PeerKeepsUpIff(ps: seq<Payload>, room: seq<nat>, payload: Payload)
    requires payload != [] && Pushed(Sender(Stream(ps), room), payload, |payload|).1 == |payload|
    ensures var s := Sender(Stream(ps), room);
            (forall qs: seq<Payload> :: Forwarded(Pushed(s, payload, |payload|).0.wire + Stream(qs))
                                        == Concat(ps) + (payload + Concat(qs)))
            <==> Whole(s, payload) || Unnoticed(Added(s, payload), payload)
  {
    var s := Sender(Stream(ps), room);
    var k := AddedIs(s, payload);
    var x, wire := Added(s, payload), Pushed(s, payload, |payload|).0.wire;
    hide Pushed, Added, Whole, Header, Forwarded, Frame, Stream, Concat, Harmless;
    forall qs: seq<Payload>
      ensures Forwarded(wire + Stream(qs)) == Concat(ps) + Forwarded(x + Stream(qs))
    {
      Assoc(Stream(ps), x, Stream(qs));
      StreamForwarded(ps, x + Stream(qs));
    }
    if Whole(s, payload) {
      FrameIsUnnoticed(payload);
    }
    if Unnoticed(x, payload) {
      forall qs: seq<Payload>
        ensures Forwarded(wire + Stream(qs)) == Concat(ps) + (payload + Concat(qs))
      {
        KeepsUp(x, payload, qs);
      }
    } else {
      var qs := FallsBehind(x, payload, k);
      SameFront(Concat(ps), Forwarded(x + Stream(qs)), Concat(ps), payload + Concat(qs));
      assert Forwarded(wire + Stream(qs)) != Concat(ps) + (payload + Concat(qs));
    }
  }

  lemma FrameIsUnnoticed(payload: Payload)
    ensures |Frame(payload)| == HEADER + |payload| && Unnoticed(Frame(payload), payload)
  {
    hide Le32;
    assert Frame(payload)[HEADER + |payload|..] == [];
  }

  lemma KeepsUp(x: seq<byte>, payload: Payload, qs: seq<Payload>)
    requires Header(|payload|) <= x && |x| >= HEADER + |payload| && Unnoticed(x, payload)
    ensures Forwarded(x + Stream(qs)) == payload + Concat(qs)
  {
    hide Header, Forwarded, Stream, Concat, Harmless;
    FrontForwarded(x, |payload|, Stream(qs));
    HarmlessForwarded(x[HEADER + |payload|..], Stream(qs));
    StreamForwarded(qs, []);
    assert Stream(qs) + [] == Stream(qs);
    NothingForwarded();
    assert Concat(qs) + [] == Concat(qs);
  }

  lemma NothingForwarded()
    ensures Forwarded([]) == []
  {
  }

  lemma FallsBehind(x: seq<byte>, payload: Payload, k: nat) returns (qs: seq<Payload>)
    requires Header(|payload|) <= x && |x| == HEADER * (k + 1) + |payload| && !Unnoticed(x, payload)
    ensures Forwarded(x + Stream(qs)) != payload + Concat(qs)
  {
    hide Header, Forwarded, Stream, Concat, Harmless;
    var size := |payload|;
    var front, r := x[HEADER..HEADER + size], x[HEADER + size..];
    if front == payload {
      assert |r| == HEADER * k;
      qs := Derail(r);
    } else {
      qs := [];
    }
    FrontForwarded(x, size, Stream(qs));
    SameFront(front, Forwarded(r + Stream(qs)), payload, Concat(qs));
  }

  lemma SameFront(a: seq<byte>, b: seq<byte>, c: seq<byte>, d: seq<byte>)
    requires |a| == |c|
    ensures a + b == c + d <==> a == c && b == d
  {
    if a + b == c + d {
      assert a == (a + b)[..|a|] && b == (a + b)[|a|..] && c == (c + d)[..|c|] && d == (c + d)[|c|..];
    }
  }

  // ---------------------------------------------------------------------------
  // Payloads that are safe
  // ---------------------------------------------------------------------------

  /** At byte `k` the payload reads like the header of what is left of it, as far as it goes. */
  predicate HeaderAt(payload: Payload, k: nat)
    requires k <= |payload|
  {
    var j := Min(HEADER, |payload| - k);
    payload[k..k + j] == Header(|payload| - k)[..j]
  }

  /** A payload that is read back in spite of a short write holds the header of its own rest. */
  lemma ReadBackHoldsHeader(x: seq<byte>, payload: Payload, n: nat)
    requires n < |payload| && |x| >= HEADER + |payload|
    requires Header(|payload|) + payload[..n] + Header(|payload| - n) <= x
    ensures x[HEADER..HEADER + |payload|] == payload ==> HeaderAt(payload, n)
  {
    hide Header;
    var size, h := |payload|, Header(|payload| - n);
    var j := Min(HEADER, size - n);
    Behind(Header(size) + payload[..n], h, x);
    assert x[HEADER + n..HEADER + n + j] == x[HEADER + n..][..j] == h[..j];
    Within(x, HEADER, HEADER + size, n, n + j);
  }

  lemma Within(x: seq<byte>, a: nat, b: nat, i: nat, j: nat)
    requires a <= b <= |x| && i <= j <= b - a
    ensures x[a..b][i..j] == x[a + i..a + j]
  {
    assert forall k :: 0 <= k < j - i ==> x[a..b][i..j][k] == x[a + i..a + j][k];
  }

  /** For a payload that nowhere holds the header of its own rest, nor ends in the beginning of
      one, a short first write always shows at once; the result of the loop is the same. */
  lemma PeerReadsPayloadIff(ps: seq<Payload>, room: seq<nat>, payload: Payload)
    requires payload != [] && Pushed(Sender(Stream(ps), room), payload, |payload|).1 == |payload|
    requires forall k :: 0 < k < |payload| ==> !HeaderAt(payload, k)
    ensures var s := Sender(Stream(ps), room);
            && (Forwarded(Pushed(s, payload, |payload|).0.wire) == Concat(ps) + payload <==> Whole(s, payload))
            && (Unnoticed(Added(s, payload), payload) ==> Whole(s, payload))
  {
    hide Pushed, Added, Written, Whole, Header, Forwarded, Frame, HeaderAt, Stream, Concat, Harmless;
    var s := Sender(Stream(ps), room);
    var k := AddedIs(s, payload);
    var x := Added(s, payload);
    StreamForwarded(ps, x);
    SameFront(Concat(ps), Forwarded(x), Concat(ps), payload);
    ForwardedIs(x, payload);
    if Whole(s, payload) {
      FrameIsUnnoticed(payload);
      NothingForwarded();
      assert x[HEADER + |payload|..] == [];
    } else {
      ReadBackHoldsHeader(x, payload, Written(s, payload));
    }
  }

  lemma ForwardedIs(x: seq<byte>, payload: Payload)
    requires Header(|payload|) <= x && |x| >= HEADER + |payload|
    ensures Forwarded(x) == payload
            <==> x[HEADER..HEADER + |payload|] == payload && Forwarded(x[HEADER + |payload|..]) == []
  {
    hide Header, Forwarded;
    var front, r := x[HEADER..HEADER + |payload|], x[HEADER + |payload|..];
    FrontForwarded(x, |payload|, []);
    assert x + [] == x && r + [] == r && payload + [] == payload;
    SameFront(front, Forwarded(r), payload, []);
  }

  // ---------------------------------------------------------------------------
  // Short writes that do not show
  // ---------------------------------------------------------------------------

  lemma WholeAtOnce(s: Sender, payload: Payload)
    requires s.room == []
    ensures Written(s, payload) == |payload| && Write(s, payload) == Sender(s.wire + Frame(payload), [])
  {
    hide Le32;
    var t := Sent(s, Header(|payload|));
    assert Header(|payload|)[..HEADER] == Header(|payload|);
    assert payload[..|payload|] == payload && payload[|payload|..] == [];
    Assoc(s.wire, Header(|payload|), payload);
    assert Header(|payload|) + payload == Frame(payload);
    if payload == [] {
      assert t.wire + [] == t.wire;
    } else {
      assert BodySent(t, payload) == BodySent(Sent(t, payload), []) == Sent(t, payload);
    }
  }

  const ONE_BYTE_FIRST := [8, 1, 0]

  /** The header goes out, one byte, and then the rest at once. */
  lemma OneByteFirst(x: byte, rest: Payload)
    requires rest != [] && |rest| + 1 < 0x8000_0000
    ensures var payload, s := [x] + rest, Sender([], ONE_BYTE_FIRST);
            && !Whole(s, payload) && Pushed(s, payload, |payload|).1 == |payload|
            && Added(s, payload) == Header(|payload|) + [x] + Frame(rest)
  {
    hide Header, Frame;
    var payload: Payload, s := [x] + rest, Sender([], ONE_BYTE_FIRST);
    var h := Header(|payload|);
    var t, u, v := Sender(h, [1, 0]), Sender(h + [x], [0]), Sender(h + [x], []);
    assert h[..8] == h && [] + h == h && Sent(s, h) == t;
    assert payload[..1] == [x] && payload[1..] == rest && Sent(t, payload) == u;
    assert BodyTaken(u, rest) == 0 && BodyTaken(t, payload) == 1 && Written(s, payload) == 1;
    assert rest[..0] == [] && u.wire + [] == u.wire;
    assert BodySent(u, rest) == v && BodySent(t, payload) == v && Write(s, payload) == v;
    WholeAtOnce(v, rest);
    assert rest[|rest|..] == [];
    assert Pushed(v, rest, |rest|) == (Write(v, rest), |rest|);
    assert Pushed(s, payload, |payload|) == (Write(v, rest), |payload|);
  }

  /** The header of the rest can stand in for the rest: with this payload the peer reads what
      was written in spite of a short write. It then waits for eight bytes more. */
  lemma HeaderPassesForPayload(x: byte)
    ensures var payload, s := [x] + Header(8), Sender([], ONE_BYTE_FIRST);
            && !Whole(s, payload) && Pushed(s, payload, 9).1 == 9 && Forwarded(Pushed(s, payload, 9).0.wire) == payload
  {
    hide Pushed, Added, Forwarded, Header, Frame;
    var payload: Payload, s := [x] + Header(8), Sender([], ONE_BYTE_FIRST);
    OneByteFirst(x, Header(8));
    var k := AddedIs(s, payload);
    FrameOfHeader(8);
    LoneHeader(8);
    Regrouped(Header(9), [x], Header(8), Header(8));
    assert [] + Added(s, payload) == Added(s, payload);
    FrameForwarded(payload, Header(8));
    assert payload + [] == payload;
  }

  lemma Regrouped(a: seq<byte>, b: seq<byte>, c: seq<byte>, d: seq<byte>)
    ensures a + b + (c + d) == a + ((b + c) + d)
  {
  }

  lemma LoneHeader(n: nat)
    requires 0 < n < 0x8000_0000
    ensures Forwarded(Header(n)) == []
  {
    HeaderReads(n, []);
    assert Header(n) + [] == Header(n);
  }

  lemma FrameOfHeader(n: nat)
    requires n < TWO_32
    ensures Frame(Header(n)) == Header(8) + Header(n)
  {
  }

  /** And a short write can go unnoticed for good: here the one byte too many that the peer
      still holds back begins eight bytes that it skips. */
  lemma ShortWriteUnnoticed(x: byte, qs: seq<Payload>)
    ensures var payload, s := [x] + Header(9) + [0x78], Sender([], ONE_BYTE_FIRST);
            && !Whole(s, payload) && Pushed(s, payload, 10).1 == 10
            && Forwarded(Pushed(s, payload, 10).0.wire + Stream(qs)) == payload + Concat(qs)
  {
    hide Pushed, Added, Forwarded, Stream, Concat, Header, Frame, Unnoticed;
    var rest: Payload, s := Header(9) + [0x78], Sender([], ONE_BYTE_FIRST);
    var payload: Payload := [x] + rest;
    assert payload == [x] + Header(9) + [0x78];
    OneByteFirst(x, rest);
    var k := AddedIs(s, payload);
    StrayBytes(x);
    KeepsUp(Added(s, payload), payload, qs);
    assert [] + Added(s, payload) == Added(s, payload);
  }

  lemma StrayBytes(x: byte)
    ensures var rest: Payload := Header(9) + [0x78];
            var y := Header(10) + [x] + Frame(rest);
            |y| >= HEADER + 10 && Unnoticed(y, [x] + rest)
  {
    var h, rest: Payload := Header(9), Header(9) + [0x78];
    var y, r := Header(10) + [x] + Frame(rest), Header(9)[1..] + [0x78];
    assert Frame(rest) == h + rest && h[0] == 0x78;
    SkippedHeader(r);
    hide Header, Frame, Harmless;
    assert y == Header(10) + ([x] + h + [h[0]]) + r;
    assert y[HEADER..HEADER + 10] == [x] + rest && y[HEADER + 10..] == r;
  }

  lemma SkippedHeader(r: seq<byte>)
    requires |r| == HEADER && r[0] != 0x78
    ensures Harmless(r)
  {
    assert r[..4][0] == r[0] && FromLe32(r[..4]) % 256 == r[0];
    assert r[HEADER..] == [];
  }
}
