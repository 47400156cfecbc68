/** The USB-over-TCP transport, as the reader sees it: `qtcp_read` and the loop of
    `qusb_noblock_read`.

    Payloads travel as frames of a tag, a length and the bytes. The reader keeps the length
    that is left of the current frame in a static variable from call to call; it is in place
    as long as that length fits the position in the stream. What keeps it in place is stated
    exactly, for every fragmentation and every pattern of timeouts. */
module TcpLink {

  import opened Bytes
  import opened Options
  import opened Sequences

  const VERSION := 0x12345678  // Q_USB2TCP_VERSION
  const HEADER := 8            // sizeof(TLV)

  type Word = v: nat | v < TWO_32

  /** The value of an `int` with these 32 bits. */
  function Signed(v: Word): int {
    if v < 0x8000_0000 then v else v - TWO_32
  }

  // ---------------------------------------------------------------------------
  // Streams of frames
  // ---------------------------------------------------------------------------

  type Payload = p: seq<byte> | |p| < 0x8000_0000

  function Frame(p: Payload): seq<byte> {
    Le32(VERSION) + Le32(|p|) + p
  }

  /** The tag 0x12345678 and the length of the payload, each low byte first, and the payload. */
  lemma FrameBytes(p: Payload)
    ensures Frame(p) == [0x78, 0x56, 0x34, 0x12,
                         |p| % 0x100, |p| / 0x100 % 0x100, |p| / 0x1_0000 % 0x100, |p| / 0x100_0000] + p
  {
  }

  function Stream(ps: seq<Payload>): seq<byte> {
    if ps == [] then [] else Frame(ps[0]) + Stream(ps[1..])
  }

  predicate GoodHeader(wire: seq<byte>) {
    |wire| >= HEADER && FromLe32(wire[..4]) == VERSION
  }

  function HeaderLength(wire: seq<byte>): nat
    requires |wire| >= HEADER
  {
    var n := Signed(FromLe32(wire[4..8]));
    if n < 0 then 0 else n
  }

  /** The tag must be the bytes 78 56 34 12; the length is a 32-bit number, low byte first, and
      counts as none when its highest bit is set. */
  lemma HeaderOnBytes(wire: seq<byte>)
    requires |wire| >= 8
    ensures GoodHeader(wire) <==> wire[0] == 0x78 && wire[1] == 0x56 && wire[2] == 0x34 && wire[3] == 0x12
    ensures HeaderLength(wire)
            == var b4: int, b5: int, b6: int, b7: int := wire[4], wire[5], wire[6], wire[7];
               if b7 >= 0x80 then 0 else b4 + 0x100 * b5 + 0x1_0000 * b6 + 0x100_0000 * b7
  {
    assert wire[..4] == [wire[0], wire[1], wire[2], wire[3]] && wire[4..8] == [wire[4], wire[5], wire[6], wire[7]];
  }

  /** The payload bytes on the wire, when `left` bytes of the current frame are to come; the
      length of a header stays in force even when `qtcp_read` has complained about its tag. */
  function Contents(left: nat, wire: seq<byte>): seq<byte>
    decreases |wire|, left
  {
    if wire == [] then []
    else if left > 0 then
      if |wire| <= left then wire else wire[..left] + Contents(0, wire[left..])
    else if |wire| < HEADER then []
    else Contents(HeaderLength(wire), wire[HEADER..])
  }

  lemma StreamHead(ps: seq<Payload>)
    requires ps != []
    ensures var wire, p := Stream(ps), ps[0];
            GoodHeader(wire) && FromLe32(wire[4..8]) == |p| && wire[HEADER..] == p + Stream(ps[1..])
  {
    hide Le32, FromLe32;
    var p := ps[0];
    Le32RoundTrip(VERSION);
    Le32RoundTrip(|p|);
    HeadOfFrame(p, Stream(ps[1..]));
  }

  lemma HeadOfFrame(p: Payload, rest: seq<byte>)
    ensures var wire := Frame(p) + rest;
            |wire| >= HEADER && wire[..4] == Le32(VERSION) && wire[4..8] == Le32(|p|) && wire[HEADER..] == p + rest
  {
    hide Le32;
  }

  lemma {:induction false} ContentsOfStream(ps: seq<Payload>)
    ensures Contents(0, Stream(ps)) == Concat(ps)
  {
    if ps != [] {
      hide Le32, FromLe32;
      var n := |ps[0]|;
      var body: seq<byte> := ps[0] + Stream(ps[1..]);
      StreamHead(ps);
      ContentsOfStream(ps[1..]);
      ContentsSplit(n, body, n);
      assert body[..n] == ps[0] && body[n..] == Stream(ps[1..]);
    }
  }

  /** Taking `k` bytes of the current frame off the wire takes the same bytes off its contents. */
  lemma {:induction false} ContentsSplit(left: nat, wire: seq<byte>, k: nat)
    requires k <= left && k <= |wire|
    ensures Contents(left, wire) == wire[..k] + Contents(left - k, wire[k..])
  {
    if k == |wire| {
      assert wire[k..] == [];
    } else if k == left {
      assert wire[left..] == wire[k..];
    } else if |wire| <= left {
      assert wire[..k] + wire[k..] == wire;
    } else {
      assert wire[k..][left - k..] == wire[left..];
      assert wire[..left] == wire[..k] + wire[k..][..left - k];
    }
  }

  // ---------------------------------------------------------------------------
  // Positions in a stream
  // ---------------------------------------------------------------------------

  /** How much of the current frame is to come after the first `n` bytes of a stream; nothing
      fits a position within a header. */
  function Place(ps: seq<Payload>, n: nat): Option<nat> {
    if n == 0 then Some(0)
    else if ps == [] || n < HEADER then None
    else if n <= HEADER + |ps[0]| then Some(HEADER + |ps[0]| - n)
    else Place(ps[1..], n - HEADER - |ps[0]|)
  }

  lemma {:induction false} PlaceAdvances(ps: seq<Payload>, n: nat, k: nat)
    requires Place(ps, n).Some? && k <= Place(ps, n).value
    ensures Place(ps, n + k) == Some(Place(ps, n).value - k) && n + Place(ps, n).value <= |Stream(ps)|
  {
    hide Le32;
    if ps != [] && n > HEADER + |ps[0]| {
      PlaceAdvances(ps[1..], n - HEADER - |ps[0]|, k);
    }
  }

  /** Between two frames the stream goes on with a whole header. */
  lemma {:induction false} PlaceOfHeader(ps: seq<Payload>, n: nat)
    requires Place(ps, n) == Some(0) && n < |Stream(ps)|
    ensures n + HEADER <= |Stream(ps)|
    ensures var wire := Stream(ps)[n..];
            && FromLe32(wire[..4]) == VERSION && FromLe32(wire[4..8]) < 0x8000_0000
            && Place(ps, n + HEADER) == Some(FromLe32(wire[4..8]))
  {
    hide Le32, FromLe32;
    var m := HEADER + |ps[0]|;
    StreamHead(ps);
    assert |Stream(ps)| == m + |Stream(ps[1..])|;
    if n == 0 {
      assert Stream(ps)[0..] == Stream(ps);
    } else {
      assert n >= m;
      var rest := n - m;
      assert Place(ps[1..], rest) == Some(0);
      PlaceOfHeader(ps[1..], rest);
      assert Stream(ps)[m..] == Stream(ps[1..]) by {
        assert Stream(ps)[HEADER..][|ps[0]|..] == Stream(ps)[m..];
      }
      assert Stream(ps)[n..] == Stream(ps[1..])[rest..];
      PlaceBehindFirst(ps, rest + HEADER);
    }
  }

  lemma {:induction false} NoPlaceInHeader(ps: seq<Payload>, n: nat, g: nat)
    requires Place(ps, n) == Some(0) && n < |Stream(ps)| && 0 < g < HEADER
    ensures Place(ps, n + g) == None
  {
    hide Le32;
    if n > 0 {
      var m := HEADER + |ps[0]|;
      assert |Stream(ps)| == m + |Stream(ps[1..])|;
      NoPlaceInHeader(ps[1..], n - m, g);
      PlaceBehindFirst(ps, n - m + g);
    }
  }

  lemma PlaceBehindFirst(ps: seq<Payload>, n: nat)
    requires ps != [] && n > 0
    ensures Place(ps, HEADER + |ps[0]| + n) == Place(ps[1..], n)
  {
  }

  // ---------------------------------------------------------------------------
  // Reading
  // ---------------------------------------------------------------------------

  /** What a poll and the read after it meet: silence, or at most `n` bytes. */
  datatype Arrival = Timeout | Bytes(n: nat)

  /** The static length, what the peer has sent and is not yet read, and how the network will
      deliver it; after the last arrival it delivers all that is asked for. */
  datatype Link = Link(length: int, incoming: seq<byte>, arrivals: seq<Arrival>)

  function Min(a: nat, b: nat): nat { if a < b then a else b }

  /** How many bytes a read of at most `k` gets. */
  function Granted(l: Link, k: nat): (n: nat)
    ensures n <= k && n <= |l.incoming|
  {
    var ready := if l.arrivals == [] then |l.incoming| else match l.arrivals[0] case Timeout => 0 case Bytes(n) => n;
    Min(k, Min(ready, |l.incoming|))
  }

  function Received(l: Link, k: nat): Link {
    Link(l.length, l.incoming[Granted(l, k)..], if l.arrivals == [] then [] else l.arrivals[1..])
  }

  /** How many bytes the body loop gets before a read comes up empty. */
  function BodyBytes(l: Link, want: int): (n: nat)
    ensures n <= |l.incoming| && n <= if want < 0 then 0 else want
    decreases want
  {
    if want <= 0 || Granted(l, want) == 0 then 0
    else Granted(l, want) + BodyBytes(Received(l, want), want - Granted(l, want))
  }

  function AfterBody(l: Link, want: int): Link
    decreases want
  {
    if want <= 0 then l
    else if Granted(l, want) == 0 then Received(l, want)
    else AfterBody(Received(l, want), want - Granted(l, want))
  }

  lemma {:induction false} AfterBodyIs(l: Link, want: int)
    ensures AfterBody(l, want).length == l.length
    ensures AfterBody(l, want).incoming == l.incoming[BodyBytes(l, want)..]
    decreases want
  {
    if want > 0 && Granted(l, want) > 0 {
      AfterBodyIs(Received(l, want), want - Granted(l, want));
    }
  }

  /** The length field of the static TLV after `got` has overwritten it from its first byte
      on; before, it was zero. */
  function LengthAfter(got: seq<byte>): int
    requires |got| <= HEADER
  {
    Signed(FromLe32((got + (Le32(VERSION) + Le32(0))[|got|..])[4..8]))
  }

  function AfterHeader(l: Link): Link {
    Received(l, HEADER).(length := LengthAfter(l.incoming[..Granted(l, HEADER)]))
  }

  /** The header arrives in one piece and with the right tag. */
  predicate HeaderArrives(l: Link) {
    Granted(l, HEADER) == HEADER && FromLe32(l.incoming[..4]) == VERSION
  }

  function Want(l: Link, size: nat): int { if size > l.length then l.length else size }

  /** The state in which the body is read. */
  function AtBody(l: Link): Link { if l.length == 0 then AfterHeader(l) else l }

  /** What `qtcp_read` leaves behind, and what it returns. */
  function Read(l: Link, size: nat): Link {
    if l.length == 0 && !HeaderArrives(l) then AfterHeader(l)
    else var b := AtBody(l); AfterBody(b, Want(b, size)).(length := b.length - Want(b, size))
  }

  function ReadData(l: Link, size: nat): seq<byte> {
    if l.length == 0 && !HeaderArrives(l) then []
    else var b := AtBody(l); b.incoming[..BodyBytes(b, Want(b, size))]
  }

  // ---------------------------------------------------------------------------
  // Keeping one's place
  // ---------------------------------------------------------------------------

  /** The rest of the stream is to come, and the length fits the position in it. */
  ghost predicate InPlace(l: Link, ps: seq<Payload>) {
    var n := |Stream(ps)| - |l.incoming|;
    n >= 0 && l.incoming == Stream(ps)[n..] && Place(ps, n) == Some(l.length)
  }

  /** What must arrive: none of a header or all of it, and the whole body that is asked for. */
  predicate Arrives(l: Link, size: nat) {
    if l.length == 0 && Granted(l, HEADER) == 0 then true
    else if l.length == 0 && Granted(l, HEADER) < HEADER then false
    else var b := AtBody(l); BodyBytes(b, Want(b, size)) == Want(b, size)
  }

  lemma LengthOfHeader(got: seq<byte>)
    requires |got| == HEADER
    ensures LengthAfter(got) == Signed(FromLe32(got[4..8]))
  {
    hide FromLe32, Le32;
    assert got + (Le32(VERSION) + Le32(0))[|got|..] == got;
  }

  lemma LengthOfNothing()
    ensures LengthAfter([]) == 0
  {
    hide FromLe32, Le32;
    assert ([] + (Le32(VERSION) + Le32(0))[0..])[4..8] == Le32(0);
    Le32RoundTrip(0);
  }

  /** Between two frames, in place: the state after a header that arrives whole. */
  lemma HeaderKeepsPlace(l: Link, ps: seq<Payload>)
    requires InPlace(l, ps) && l.length == 0 && Granted(l, HEADER) == HEADER
    ensures HeaderArrives(l) && InPlace(AfterHeader(l), ps)
    ensures AfterHeader(l).length >= 0
    ensures Contents(0, l.incoming) == Contents(AfterHeader(l).length, AfterHeader(l).incoming)
  {
    hide FromLe32, Le32, LengthAfter;
    var n := |Stream(ps)| - |l.incoming|;
    PlaceOfHeader(ps, n);
    LengthOfHeader(l.incoming[..HEADER]);
    assert l.incoming[..HEADER][4..8] == l.incoming[4..8];
    assert AfterHeader(l).incoming == Stream(ps)[n + HEADER..];
  }

  /** `got` bytes further on within a frame. */
  lemma PlaceWithin(l: Link, ps: seq<Payload>, got: nat, m: Link)
    requires InPlace(l, ps) && got <= l.length && got <= |l.incoming| && m.incoming == l.incoming[got..]
    ensures InPlace(m, ps) <==> m.length == l.length - got
  {
    hide Stream, Place;
    var n := |Stream(ps)| - |l.incoming|;
    PlaceAdvances(ps, n, got);
    assert l.incoming[got..] == Stream(ps)[n + got..];
  }

  /** Part of a header further on. */
  lemma PlaceLost(l: Link, ps: seq<Payload>, got: nat, m: Link)
    requires InPlace(l, ps) && l.length == 0 && 0 < got < HEADER && got <= |l.incoming|
             && m.incoming == l.incoming[got..]
    ensures !InPlace(m, ps)
  {
    hide Stream, Place;
    var n := |Stream(ps)| - |l.incoming|;
    NoPlaceInHeader(ps, n, got);
    assert |Stream(ps)| - |m.incoming| == n + got;
  }

  lemma LengthInPlace(l: Link, ps: seq<Payload>)
    requires InPlace(l, ps)
    ensures 0 <= l.length <= |l.incoming|
  {
    PlaceAdvances(ps, |Stream(ps)| - |l.incoming|, 0);
  }

  lemma BodyKeepsPlaceIff(l: Link, ps: seq<Payload>, size: nat)
    requires InPlace(l, ps)
    ensures var m := AfterBody(l, Want(l, size)).(length := l.length - Want(l, size));
            && (InPlace(m, ps) <==> BodyBytes(l, Want(l, size)) == Want(l, size))
            && (InPlace(m, ps) ==>
                  m.length >= 0 && l.length >= 0
                  && Contents(l.length, l.incoming)
                     == l.incoming[..BodyBytes(l, Want(l, size))] + Contents(m.length, m.incoming))
  {
    hide InPlace, Contents, BodyBytes, AfterBody;
    LengthInPlace(l, ps);
    AfterBodyIs(l, Want(l, size));
    var got := BodyBytes(l, Want(l, size));
    var m := AfterBody(l, Want(l, size)).(length := l.length - Want(l, size));
    PlaceWithin(l, ps, got, m);
    if got == Want(l, size) {
      ContentsSplit(l.length, l.incoming, got);
    }
  }

  lemma TimeoutKeepsPlace(l: Link, ps: seq<Payload>, m: Link)
    requires InPlace(l, ps) && m.incoming == l.incoming && m.length == l.length
    ensures InPlace(m, ps)
  {
  }

  /** What has been read and what is to come make up what was to come before. */
  predicate Conserves(l: Link, data: seq<byte>, m: Link) {
    l.length >= 0 && m.length >= 0 && Contents(l.length, l.incoming) == data + Contents(m.length, m.incoming)
  }

  lemma BodyConserves(l: Link, ps: seq<Payload>, size: nat)
    requires InPlace(l, ps) && (l.length == 0 ==> HeaderArrives(l)) && InPlace(AtBody(l), ps)
    requires Conserves(l, [], AtBody(l))
    ensures InPlace(Read(l, size), ps) <==> BodyBytes(AtBody(l), Want(AtBody(l), size)) == Want(AtBody(l), size)
    ensures InPlace(Read(l, size), ps) ==> Conserves(l, ReadData(l, size), Read(l, size))
  {
    hide InPlace, Contents, BodyBytes, AfterBody, AfterHeader, HeaderArrives, Want;
    BodyKeepsPlaceIff(AtBody(l), ps, size);
  }

  lemma NothingConserves(l: Link)
    requires l.length >= 0
    ensures Conserves(l, [], l)
  {
    hide Contents;
  }

  lemma HeaderConserves(l: Link, ps: seq<Payload>)
    requires InPlace(l, ps) && l.length == 0 && Granted(l, HEADER) == HEADER
    ensures HeaderArrives(l) && InPlace(AfterHeader(l), ps) && Conserves(l, [], AfterHeader(l))
  {
    HeaderKeepsPlace(l, ps);
    hide Contents, InPlace, AfterHeader;
  }

  /** A read in place stays in place exactly if what must arrive does; and then what it
      returns is the next part of the contents. */
  lemma ReadKeepsPlaceIff(l: Link, ps: seq<Payload>, size: nat)
    requires InPlace(l, ps)
    ensures InPlace(Read(l, size), ps) <==> Arrives(l, size)
    ensures Arrives(l, size) ==> Conserves(l, ReadData(l, size), Read(l, size))
  {
    hide InPlace, Conserves, Contents, LengthAfter, BodyBytes, AfterBody, Want;
    LengthInPlace(l, ps);
    NothingConserves(l);
    var g := Granted(l, HEADER);
    if l.length != 0 {
      BodyConserves(l, ps, size);
    } else if g == HEADER {
      HeaderConserves(l, ps);
      BodyConserves(l, ps, size);
    } else if g == 0 {
      NoHeader(l, size);
      TimeoutKeepsPlace(l, ps, Read(l, size));
      SameConserves(l, Read(l, size));
    } else {
      PlaceLost(l, ps, g, Read(l, size));
    }
  }

  /** A header read that comes up empty changes nothing. */
  lemma NoHeader(l: Link, size: nat)
    requires l.length == 0 && Granted(l, HEADER) == 0
    ensures Read(l, size).length == 0 && Read(l, size).incoming == l.incoming && ReadData(l, size) == []
  {
    LengthOfNothing();
    assert l.incoming[..0] == [] && l.incoming[0..] == l.incoming;
  }

  lemma SameConserves(l: Link, m: Link)
    requires l.length >= 0 && m.length == l.length && m.incoming == l.incoming
    ensures Conserves(l, [], m)
  {
    hide Contents;
  }

  lemma ConservesChain(l: Link, d: seq<byte>, m: Link, e: seq<byte>, n: Link)
    requires Conserves(l, d, m) && Conserves(m, e, n)
    ensures Conserves(l, d + e, n)
  {
    hide Contents;
  }

  // ---------------------------------------------------------------------------
  // Any number of reads
  // ---------------------------------------------------------------------------

  function Reads(l: Link, sizes: seq<nat>): Link {
    if sizes == [] then l else Read(Reads(l, sizes[..|sizes| - 1]), sizes[|sizes| - 1])
  }

  function ReadsData(l: Link, sizes: seq<nat>): seq<byte> {
    if sizes == [] then []
    else ReadsData(l, sizes[..|sizes| - 1]) + ReadData(Reads(l, sizes[..|sizes| - 1]), sizes[|sizes| - 1])
  }

  /** At every read, none or all of a header arrives, and all of the body that is asked for. */
  predicate AllArrive(l: Link, sizes: seq<nat>) {
    sizes != [] ==>
      var before := sizes[..|sizes| - 1];
      AllArrive(l, before) && Arrives(Reads(l, before), sizes[|sizes| - 1])
  }

  ghost predicate StaysInPlace(l: Link, ps: seq<Payload>, sizes: seq<nat>) {
    && InPlace(Reads(l, sizes), ps)
    && (sizes != [] ==> StaysInPlace(l, ps, sizes[..|sizes| - 1]))
  }

  /** Through any reads the reader stays in place exactly if everything arrives that must;
      and then no byte is lost, repeated or invented, and no header byte leaks. */
  lemma {:induction false} ReadsStayInPlaceIff(l: Link, ps: seq<Payload>, sizes: seq<nat>)
    requires InPlace(l, ps)
    ensures StaysInPlace(l, ps, sizes) <==> AllArrive(l, sizes)
    ensures AllArrive(l, sizes) ==> Conserves(l, ReadsData(l, sizes), Reads(l, sizes))
  {
    hide InPlace, Conserves, Arrives, Read, ReadData;
    LengthInPlace(l, ps);
    NothingConserves(l);
    if sizes != [] {
      var before, size := sizes[..|sizes| - 1], sizes[|sizes| - 1];
      ReadsStayInPlaceIff(l, ps, before);
      if AllArrive(l, before) {
        var m := Reads(l, before);
        ReadKeepsPlaceIff(m, ps, size);
        if Arrives(m, size) {
          ConservesChain(l, ReadsData(l, before), m, ReadData(m, size), Read(m, size));
        }
      }
    }
  }

  // ---------------------------------------------------------------------------
  // Fragmentation without timeouts
  // ---------------------------------------------------------------------------

  /** The network cuts the stream up as it likes, but every read brings something. */
  predicate Flowing(arrivals: seq<Arrival>) {
    forall i :: 0 <= i < |arrivals| ==> arrivals[i].Bytes? && arrivals[i].n > 0
  }

  /** A header that is due is read whole. */
  predicate HeaderWhole(l: Link) {
    l.length == 0 && l.incoming != [] ==> Granted(l, HEADER) == HEADER
  }

  lemma FlowGrants(l: Link, k: nat)
    requires Flowing(l.arrivals)
    ensures Flowing(Received(l, k).arrivals) && (k > 0 && l.incoming != [] ==> Granted(l, k) > 0)
  {
  }

  lemma {:induction false} FlowBody(l: Link, want: int)
    requires Flowing(l.arrivals) && want <= |l.incoming|
    ensures BodyBytes(l, want) == (if want < 0 then 0 else want) && Flowing(AfterBody(l, want).arrivals)
    decreases want
  {
    if want > 0 {
      FlowGrants(l, want);
      FlowBody(Received(l, want), want - Granted(l, want));
    }
  }

  predicate NoneEmpty(ps: seq<Payload>) { forall i :: 0 <= i < |ps| ==> ps[i] != [] }

  lemma FlowKept(l: Link, ps: seq<Payload>, size: nat)
    requires InPlace(l, ps) && Flowing(l.arrivals)
    ensures Flowing(Read(l, size).arrivals)
  {
    hide InPlace, Flowing, Contents, LengthAfter, Granted;
    LengthInPlace(l, ps);
    FlowGrants(l, HEADER);
    if l.length != 0 {
      FlowBody(l, Want(l, size));
    } else if HeaderArrives(l) {
      HeaderConserves(l, ps);
      LengthInPlace(AfterHeader(l), ps);
      FlowBody(AfterHeader(l), Want(AfterHeader(l), size));
    }
  }

  /** Then all arrives that must exactly if a header that is due is read whole; bodies may come
      in any pieces. And then every read makes progress as long as anything is to come, for
      payloads that are not empty. */
  lemma FlowArrivesIff(l: Link, ps: seq<Payload>, size: nat)
    requires InPlace(l, ps) && Flowing(l.arrivals)
    ensures Arrives(l, size) <==> HeaderWhole(l)
    ensures HeaderWhole(l) && NoneEmpty(ps) && l.incoming != [] && size > 0 ==> ReadData(l, size) != []
  {
    hide InPlace, Flowing, Contents, LengthAfter, Granted;
    LengthInPlace(l, ps);
    FlowGrants(l, HEADER);
    if l.length != 0 {
      FlowBody(l, Want(l, size));
    } else if l.incoming != [] && Granted(l, HEADER) == HEADER {
      NextHeader(l, ps);
      HeaderConserves(l, ps);
      LengthInPlace(AfterHeader(l), ps);
      FlowBody(AfterHeader(l), Want(AfterHeader(l), size));
    }
  }

  /** Between two frames a header is to come whole, and of a frame that is not empty. */
  lemma NextHeader(l: Link, ps: seq<Payload>)
    requires InPlace(l, ps) && l.length == 0 && l.incoming != []
    ensures |l.incoming| >= HEADER
    ensures Granted(l, HEADER) == HEADER && NoneEmpty(ps) ==> AfterHeader(l).length > 0
  {
    hide Stream, FromLe32, Le32, LengthAfter;
    var n := |Stream(ps)| - |l.incoming|;
    PlaceOfHeader(ps, n);
    if Granted(l, HEADER) == HEADER && NoneEmpty(ps) {
      HeaderKeepsPlace(l, ps);
      PlaceAfterHeader(ps, n);
    }
  }

  lemma {:induction false} PlaceAfterHeader(ps: seq<Payload>, n: nat)
    requires Place(ps, n) == Some(0) && n < |Stream(ps)| && NoneEmpty(ps)
    ensures Place(ps, n + HEADER) != Some(0)
  {
    hide Le32;
    if n > 0 {
      var m := HEADER + |ps[0]|;
      assert |Stream(ps)| == m + |Stream(ps[1..])|;
      PlaceAfterHeader(ps[1..], n - m);
      PlaceBehindFirst(ps, n - m + HEADER);
    }
  }

  /** Every header that is due at one of these reads is read whole. */
  predicate HeadersWhole(l: Link, sizes: seq<nat>) {
    sizes != [] ==>
      var before := sizes[..|sizes| - 1];
      HeadersWhole(l, before) && HeaderWhole(Reads(l, before))
  }

  /** Without timeouts, however the stream is cut up, no read goes wrong exactly if no header
      is split; and then each brings at least one byte until all is delivered. */
  lemma {:induction false} FlowReadsIff(l: Link, ps: seq<Payload>, sizes: seq<nat>)
    requires InPlace(l, ps) && Flowing(l.arrivals)
    ensures AllArrive(l, sizes) <==> HeadersWhole(l, sizes)
    ensures HeadersWhole(l, sizes) ==> InPlace(Reads(l, sizes), ps) && Flowing(Reads(l, sizes).arrivals)
    ensures HeadersWhole(l, sizes) && NoneEmpty(ps) && 0 !in sizes ==>
              |ReadsData(l, sizes)| >= |sizes| || Reads(l, sizes).incoming == []
  {
    hide InPlace, Arrives, HeaderWhole, Read, ReadData, Flowing, NoneEmpty;
    if sizes != [] {
      var before, size := sizes[..|sizes| - 1], sizes[|sizes| - 1];
      FlowReadsIff(l, ps, before);
      if HeadersWhole(l, before) {
        FlowKept(Reads(l, before), ps, size);
        FlowArrivesIff(Reads(l, before), ps, size);
        ReadKeepsPlaceIff(Reads(l, before), ps, size);
        ReadShrinks(Reads(l, before), size);
      }
    }
  }

  /** No piece is shorter than a header. */
  predicate Steady(arrivals: seq<Arrival>) {
    forall i :: 0 <= i < |arrivals| ==> arrivals[i].Bytes? && arrivals[i].n >= HEADER
  }

  lemma SteadyHeader(l: Link, ps: seq<Payload>)
    requires InPlace(l, ps) && Steady(l.arrivals)
    ensures HeaderWhole(l) && Flowing(l.arrivals)
  {
    hide InPlace;
    if l.length == 0 && l.incoming != [] {
      NextHeader(l, ps);
    }
  }

  lemma {:induction false} SteadyAfterBody(l: Link, want: int)
    requires Steady(l.arrivals)
    ensures Steady(AfterBody(l, want).arrivals)
    decreases want
  {
    hide Granted;
    if want > 0 && Granted(l, want) > 0 {
      SteadyAfterBody(Received(l, want), want - Granted(l, want));
    }
  }

  lemma SteadyKept(l: Link, size: nat)
    requires Steady(l.arrivals)
    ensures Steady(Read(l, size).arrivals)
  {
    assert Steady(AfterHeader(l).arrivals);
    hide Steady, AfterHeader, AfterBody, HeaderArrives;
    SteadyAfterBody(AtBody(l), Want(AtBody(l), size));
  }

  /** Then no header is ever split. */
  lemma {:induction false} SteadyReads(l: Link, ps: seq<Payload>, sizes: seq<nat>)
    requires InPlace(l, ps) && Steady(l.arrivals)
    ensures HeadersWhole(l, sizes) && Steady(Reads(l, sizes).arrivals)
  {
    hide InPlace, HeaderWhole, Read, ReadData, Steady;
    if sizes != [] {
      var before, size := sizes[..|sizes| - 1], sizes[|sizes| - 1];
      SteadyReads(l, ps, before);
      SteadyHeader(l, ps);
      FlowReadsIff(l, ps, before);
      SteadyHeader(Reads(l, before), ps);
      SteadyKept(Reads(l, before), size);
    }
  }

  lemma ReadShrinks(l: Link, size: nat)
    ensures l.incoming == [] ==> Read(l, size).incoming == []
  {
    hide LengthAfter;
  }

  // ---------------------------------------------------------------------------
  // A header in two pieces
  // ---------------------------------------------------------------------------

  function LoneByte(x: byte): seq<byte> { Le32(VERSION) + Le32(1) + [x] }

  lemma StreamOfOne(x: byte)
    ensures Stream([[x]]) == LoneByte(x) && Concat([[x]]) == [x] && |LoneByte(x)| == 9
    ensures LoneByte(x)[7..] == [0, x]
  {
    var ps: seq<Payload> := [[x]];
    assert Stream(ps[1..]) == [] && Concat(ps[1..]) == [];
    assert LoneByte(x) + [] == LoneByte(x) && [x] + [] == [x];
    assert Le32(1) == [1, 0, 0, 0];
  }

  lemma LengthOfSevenBytes(x: byte)
    ensures LengthAfter(LoneByte(x)[..7]) == 1
  {
    var got := LoneByte(x)[..7];
    assert Le32(1) == [1, 0, 0, 0] && Le32(0) == [0, 0, 0, 0] && |Le32(VERSION)| == 4;
    var tlv := got + (Le32(VERSION) + Le32(0))[7..];
    assert tlv[4..8] == [tlv[4], tlv[5], tlv[6], tlv[7]] == [1, 0, 0, 0];
  }

  /** The first seven bytes of a header arrive alone: the read gives nothing, and the next one
      returns the last byte of the header as payload. */
  lemma SplitHeaderLeaks(x: byte)
    requires x != 0
    ensures var l := Link(0, Stream([[x]]), [Bytes(7)]);
            && InPlace(l, [[x]]) && !Arrives(l, 1)
            && ReadsData(l, [1, 1]) == [0] && !(ReadsData(l, [1, 1]) <= Concat([[x]]))
  {
    StreamOfOne(x);
    LengthOfSevenBytes(x);
    hide Stream, Concat, LengthAfter, LoneByte, Place;
    var l := Link(0, Stream([[x]]), [Bytes(7)]);
    StartInPlace(l, [[x]]);
    var m := Link(1, [0, x], []);
    assert Read(l, 1) == m && ReadData(l, 1) == [];
    LoneByteRead(x);
    assert [1, 1][..1] == [1] && [1][..0] == [];
    assert Reads(l, []) == l && ReadsData(l, []) == [];
    assert Reads(l, [1]) == m && ReadsData(l, [1]) == [];
    assert ReadsData(l, [1, 1]) == [] + ReadData(m, 1) == [0];
    assert ReadsData(l, [1, 1])[0] != Concat([[x]])[0];
  }

  lemma LoneByteRead(x: byte)
    ensures ReadData(Link(1, [0, x], []), 1) == [0]
  {
    var m := Link(1, [0, x], []);
    assert Granted(m, 1) == 1 && BodyBytes(Received(m, 1), 0) == 0;
  }

  // ---------------------------------------------------------------------------
  // qusb_noblock_read
  // ---------------------------------------------------------------------------

  /** The poll before a read finds nothing. */
  predicate Silent(l: Link) { l.arrivals != [] && l.arrivals[0].Timeout? }

  function PollPassed(l: Link): Link { l.(arrivals := l.arrivals[if l.arrivals == [] then 0 else 1..]) }

  function Less(min: nat, got: nat): nat { if got < min then min - got else 0 }

  /** The loop: reads until `min` bytes are there, the poll finds nothing or a read is empty. */
  function Collected(l: Link, max: nat, min: nat): (r: (Link, seq<byte>))
    ensures |r.1| <= max
    decreases min
  {
    if min == 0 then (l, [])
    else if Silent(l) then (PollPassed(l), [])
    else
      var data, after := ReadData(l, max), Read(l, max);
      if data == [] || |data| > max then (after, [])
      else
        var rest := Collected(after, max - |data|, Less(min, |data|));
        (rest.0, data + rest.1)
  }

  /** At every read of the loop all arrives that must. */
  predicate CollectArrives(l: Link, max: nat, min: nat)
    decreases min
  {
    min > 0 && !Silent(l) ==>
      && Arrives(l, max)
      && var data := ReadData(l, max);
         (data != [] && |data| <= max ==> CollectArrives(Read(l, max), max - |data|, Less(min, |data|)))
  }

  lemma ReadIsBounded(l: Link, size: nat)
    ensures |ReadData(l, size)| <= size
  {
    hide LengthAfter;
  }

  lemma CollectNothing(l: Link, max: nat)
    ensures Collected(l, max, 0) == (l, [])
  {
  }

  lemma CollectSilence(l: Link, max: nat, min: nat)
    requires min > 0 && Silent(l)
    ensures Collected(l, max, min) == (PollPassed(l), [])
  {
  }

  lemma CollectStep(l: Link, max: nat, min: nat)
    requires min > 0 && !Silent(l)
    ensures var data, after := ReadData(l, max), Read(l, max);
            && |data| <= max
            && Collected(l, max, min)
               == if data == [] then (after, [])
                  else var rest := Collected(after, max - |data|, Less(min, |data|)); (rest.0, data + rest.1)
  {
    hide Read, ReadData;
    ReadIsBounded(l, max);
  }

  lemma {:induction false} CollectConserves(l: Link, ps: seq<Payload>, max: nat, min: nat)
    requires InPlace(l, ps) && CollectArrives(l, max, min)
    ensures var r := Collected(l, max, min); InPlace(r.0, ps) && Conserves(l, r.1, r.0)
    decreases min
  {
    hide InPlace, Conserves, Arrives, Read, ReadData;
    LengthInPlace(l, ps);
    NothingConserves(l);
    if min > 0 {
      if Silent(l) {
        TimeoutKeepsPlace(l, ps, PollPassed(l));
        SameConserves(l, PollPassed(l));
      } else {
        ReadKeepsPlaceIff(l, ps, max);
        ReadIsBounded(l, max);
        var data, after := ReadData(l, max), Read(l, max);
        if data != [] {
          var rest := Collected(after, max - |data|, Less(min, |data|));
          CollectConserves(after, ps, max - |data|, Less(min, |data|));
          ConservesChain(l, data, after, rest.1, rest.0);
        }
      }
    }
  }

  /** Every header that is due at a read of the loop is read whole. */
  predicate CollectHeaders(l: Link, max: nat, min: nat)
    decreases min
  {
    min > 0 ==>
      && HeaderWhole(l)
      && var data := ReadData(l, max);
         (data != [] && |data| <= max ==> CollectHeaders(Read(l, max), max - |data|, Less(min, |data|)))
  }

  lemma CollectUnrolls(l: Link, max: nat, min: nat)
    requires min > 0 && Flowing(l.arrivals)
    ensures !Silent(l) && |ReadData(l, max)| <= max
    ensures var data := ReadData(l, max);
            && (CollectArrives(l, max, min) <==>
                  Arrives(l, max) && (data != [] ==> CollectArrives(Read(l, max), max - |data|, Less(min, |data|))))
            && (CollectHeaders(l, max, min) <==>
                  HeaderWhole(l) && (data != [] ==> CollectHeaders(Read(l, max), max - |data|, Less(min, |data|))))
  {
    hide Arrives, Read, ReadData, HeaderWhole;
    ReadIsBounded(l, max);
  }

  /** At least `min` bytes have been read, or all there is. */
  predicate Enough(r: (Link, seq<byte>), min: nat) { |r.1| >= min || r.0.incoming == [] }

  lemma CollectGoesOn(l: Link, max: nat, min: nat)
    requires min > 0 && !Silent(l) && ReadData(l, max) != []
    ensures var n := |ReadData(l, max)|;
            && n <= max && Less(min, n) < min && (min <= max ==> Less(min, n) <= max - n)
            && (Enough(Collected(Read(l, max), max - n, Less(min, n)), Less(min, n)) ==>
                  Enough(Collected(l, max, min), min))
  {
    hide Read, ReadData, Silent;
    ReadIsBounded(l, max);
  }

  /** One round of the loop without timeouts, in place. */
  lemma FlowRound(l: Link, ps: seq<Payload>, max: nat)
    requires InPlace(l, ps) && Flowing(l.arrivals) && HeaderWhole(l)
    ensures Arrives(l, max) && InPlace(Read(l, max), ps) && Flowing(Read(l, max).arrivals)
  {
    hide *;
    FlowArrivesIff(l, ps, max);
    FlowKept(l, ps, max);
    ReadKeepsPlaceIff(l, ps, max);
  }

  lemma NothingCollected(l: Link, max: nat)
    ensures CollectArrives(l, max, 0) && CollectHeaders(l, max, 0) && Enough(Collected(l, max, 0), 0)
  {
  }

  /** Without timeouts all arrives in the loop that must exactly if no header is split. */
  lemma {:induction false} FlowCollectsIff(l: Link, ps: seq<Payload>, max: nat, min: nat)
    requires InPlace(l, ps) && Flowing(l.arrivals)
    ensures CollectArrives(l, max, min) <==> CollectHeaders(l, max, min)
    decreases min
  {
    hide *;
    if min == 0 {
      NothingCollected(l, max);
    } else {
      CollectUnrolls(l, max, min);
      if !HeaderWhole(l) {
        FlowArrivesIff(l, ps, max);
      } else {
        FlowRound(l, ps, max);
        if ReadData(l, max) != [] {
          var n := |ReadData(l, max)|;
          CollectGoesOn(l, max, min);
          FlowCollectsIff(Read(l, max), ps, max - n, Less(min, n));
        }
      }
    }
  }

  lemma FlowEnds(l: Link, ps: seq<Payload>, max: nat, min: nat)
    requires InPlace(l, ps) && Flowing(l.arrivals) && HeaderWhole(l) && NoneEmpty(ps)
    requires 0 < min <= max && !Silent(l) && ReadData(l, max) == []
    ensures Enough(Collected(l, max, min), min)
  {
    hide InPlace, Flowing, HeaderWhole, NoneEmpty, Silent, Read, ReadData, Collected;
    FlowArrivesIff(l, ps, max);
    CollectStep(l, max, min);
    ReadShrinks(l, max);
  }

  /** And then it returns what is asked for, or all there is. */
  lemma {:induction false} FlowCollects(l: Link, ps: seq<Payload>, max: nat, min: nat)
    requires InPlace(l, ps) && Flowing(l.arrivals) && CollectHeaders(l, max, min) && NoneEmpty(ps) && min <= max
    ensures Enough(Collected(l, max, min), min)
    decreases min
  {
    hide *;
    if min == 0 {
      NothingCollected(l, max);
    } else {
      CollectUnrolls(l, max, min);
      if ReadData(l, max) == [] {
        FlowEnds(l, ps, max, min);
      } else {
        var n := |ReadData(l, max)|;
        CollectGoesOn(l, max, min);
        FlowRound(l, ps, max);
        FlowCollects(Read(l, max), ps, max - n, Less(min, n));
      }
    }
  }

  /** With no piece shorter than a header it never is. */
  lemma {:induction false} SteadyCollects(l: Link, ps: seq<Payload>, max: nat, min: nat)
    requires InPlace(l, ps) && Steady(l.arrivals)
    ensures CollectHeaders(l, max, min)
    decreases min
  {
    hide InPlace, Arrives, Read, ReadData, Steady, HeaderWhole;
    if min > 0 {
      SteadyHeader(l, ps);
      SteadyKept(l, max);
      FlowArrivesIff(l, ps, max);
      ReadKeepsPlaceIff(l, ps, max);
      ReadIsBounded(l, max);
      var data := ReadData(l, max);
      if data != [] {
        SteadyCollects(Read(l, max), ps, max - |data|, Less(min, |data|));
      }
    }
  }

  // ---------------------------------------------------------------------------
  // The reader
  // ---------------------------------------------------------------------------

  class Reader {
    var incoming: seq<byte>
    var arrivals: seq<Arrival>
    var tag: Word               // the static TLV of qtcp_read
    var length: int

    ghost function Value(): Link
      reads this
    {
      Link(length, incoming, arrivals)
    }

    constructor (incoming: seq<byte>, arrivals: seq<Arrival>)
      ensures Value() == Link(0, incoming, arrivals)
    {
      this.incoming, this.arrivals := incoming, arrivals;
      tag, length := VERSION, 0;
    }

    /** One read of at most `k` bytes; it returns none at a timeout or at the end. */
    method Receive(k: nat) returns (got: seq<byte>)
      modifies `incoming, `arrivals
      ensures Value() == Received(old(Value()), k) && got == old(incoming)[..Granted(old(Value()), k)]
    {
      var n := |incoming|;
      if arrivals != [] {
        n := if arrivals[0].Timeout? then 0 else arrivals[0].n;
        arrivals := arrivals[1..];
      }
      n := Min(k, Min(n, |incoming|));
      got := incoming[..n];
      incoming := incoming[n..];
    }

    /** The header read: what arrives overwrites the static TLV from its first byte on. */
    method ReadHeader() returns (good: bool)
      requires length == 0
      modifies this
      ensures Value() == AfterHeader(old(Value())) && good == HeaderArrives(old(Value()))
    {
      hide FromLe32, Le32;
      var was := Le32(tag) + Le32(0);
      var got := Receive(HEADER);
      var now := got + was[|got|..];
      TagIsOverwritten(got, tag);
      tag, length := FromLe32(now[..4]), Signed(FromLe32(now[4..8]));
      if |got| == HEADER {
        assert now[..4] == old(incoming)[..4];
      }
      good := |got| == HEADER && tag == VERSION;
    }

    /** The body loop of `qtcp_read`. */
    method ReceiveBody(want: int) returns (data: seq<byte>)
      modifies `incoming, `arrivals
      ensures Value() == AfterBody(old(Value()), want) && data == old(incoming)[..BodyBytes(old(Value()), want)]
    {
      hide BodyBytes, AfterBody, Granted, Received, TakenOff;
      data := [];
      ghost var l := Value();
      NothingOff(l);
      while |data| < want
        invariant TakenOff(l, data, Value())
        invariant |data| + BodyBytes(Value(), want - |data|) == BodyBytes(l, want)
        invariant AfterBody(Value(), want - |data|) == AfterBody(l, want)
        decreases want - |data|
      {
        ghost var was, k := Value(), want - |data|;
        BodyStep(was, k);
        var got := Receive(want - |data|);
        if got == [] {
          OffIsPrefix(l, data, was);
          return;
        }
        MoreOff(l, data, was, k);
        data := data + got;
      }
      BodyStep(Value(), want - |data|);
      OffIsPrefix(l, data, Value());
    }

    /** `qtcp_read` */
    method QtcpRead(size: nat) returns (data: seq<byte>)
      modifies this
      ensures Value() == Read(old(Value()), size) && data == ReadData(old(Value()), size)
    {
      hide FromLe32, Le32, LengthAfter, BodyBytes, AfterBody;
      data := [];
      if length == 0 {
        var good := ReadHeader();
        if !good {
          return;
        }
      }
      ghost var b := Value();
      var want := if size > length then length else size;
      length := length - want;
      BodyIgnoresLength(Value(), b.length, want);
      data := ReceiveBody(want);
    }

    /** The loop of `qusb_noblock_read` on a TCP socket. */
    method QusbNoblockRead(maxSize: nat, minSize: nat) returns (data: seq<byte>)
      modifies this
      ensures var min := if minSize == 0 then 1 else minSize;
              Value() == Collected(old(Value()), maxSize, min).0 && data == Collected(old(Value()), maxSize, min).1
    {
      hide Read, ReadData, Collected;
      var min := if minSize == 0 then 1 else minSize;
      data := [];
      ghost var l := Value();
      while |data| < min
        invariant |data| <= maxSize
        invariant Collected(l, maxSize, min).0 == Collected(Value(), maxSize - |data|, Less(min, |data|)).0
        invariant Collected(l, maxSize, min).1 == data + Collected(Value(), maxSize - |data|, Less(min, |data|)).1
        decreases min - |data|
      {
        if arrivals != [] && arrivals[0].Timeout? {
          CollectSilence(Value(), maxSize - |data|, Less(min, |data|));
          arrivals := arrivals[1..];
          break;
        }
        ghost var m := Less(min, |data|);
        CollectStep(Value(), maxSize - |data|, m);
        var got := QtcpRead(maxSize - |data|);
        if got == [] {
          break;
        }
        data := data + got;
        assert Less(m, |got|) == Less(min, |data|);
      }
      CollectNothing(Value(), maxSize - |data|);
    }

    /** Any number of reads of any sizes on the stream of any payloads. */
    method ReadAll(ps: seq<Payload>, sizes: seq<nat>) returns (data: seq<byte>)
      requires length == 0 && incoming == Stream(ps)
      modifies this
      ensures data == ReadsData(old(Value()), sizes)
      ensures AllArrive(old(Value()), sizes) ==> length >= 0 && Concat(ps) == data + Contents(length, incoming)
      ensures Flowing(old(arrivals)) && HeadersWhole(old(Value()), sizes) ==>
                data <= Concat(ps) && (NoneEmpty(ps) && 0 !in sizes ==> |data| >= |sizes| || data == Concat(ps))
      ensures Steady(old(arrivals)) ==> Flowing(old(arrivals)) && HeadersWhole(old(Value()), sizes)
    {
      ghost var l := Value();
      StartInPlace(l, ps);
      data := [];
      for k := 0 to |sizes|
        invariant Value() == Reads(l, sizes[..k]) && data == ReadsData(l, sizes[..k])
      {
        hide Read, ReadData;
        assert sizes[..k + 1][..k] == sizes[..k];
        var got := QtcpRead(sizes[k]);
        data := data + got;
      }
      assert sizes[..|sizes|] == sizes;
      ContentsOfStream(ps);
      ReadsStayInPlaceIff(l, ps, sizes);
      if Steady(l.arrivals) {
        SteadyHeader(l, ps);
        SteadyReads(l, ps, sizes);
      }
      if Flowing(l.arrivals) {
        FlowReadsIff(l, ps, sizes);
        NothingToCome(length);
      }
    }
  }

  /** What was in the tag does not matter for the length that is read. */
  lemma TagIsOverwritten(got: seq<byte>, tag: Word)
    requires |got| <= HEADER
    ensures var now := got + (Le32(tag) + Le32(0))[|got|..];
            && now[4..8] == (got + (Le32(VERSION) + Le32(0))[|got|..])[4..8]
            && (|got| == HEADER ==> now == got)
  {
    hide Le32;
  }

  lemma NothingToCome(left: int)
    ensures left >= 0 ==> Contents(left, []) == []
  {
  }

  lemma StartInPlace(l: Link, ps: seq<Payload>)
    requires l.length == 0 && l.incoming == Stream(ps)
    ensures InPlace(l, ps)
  {
    assert Stream(ps)[0..] == Stream(ps);
  }

  /** `data` has been taken off the front of `l`. */
  ghost predicate TakenOff(l: Link, data: seq<byte>, m: Link) {
    data <= l.incoming && m.incoming == l.incoming[|data|..]
  }

  lemma NothingOff(l: Link)
    ensures TakenOff(l, [], l)
  {
  }

  lemma MoreOff(l: Link, data: seq<byte>, m: Link, k: nat)
    requires TakenOff(l, data, m)
    ensures TakenOff(l, data + m.incoming[..Granted(m, k)], Received(m, k))
  {
    var n := Granted(m, k);
    assert data + m.incoming[..n] == l.incoming[..|data| + n];
  }

  lemma OffIsPrefix(l: Link, data: seq<byte>, m: Link)
    requires TakenOff(l, data, m)
    ensures |data| <= |l.incoming| && data == l.incoming[..|data|]
  {
  }

  lemma BodyStep(l: Link, want: int)
    ensures want <= 0 ==> BodyBytes(l, want) == 0 && AfterBody(l, want) == l
    ensures want > 0 && Granted(l, want) == 0 ==> BodyBytes(l, want) == 0 && AfterBody(l, want) == Received(l, want)
    ensures want > 0 && Granted(l, want) > 0 ==>
              && BodyBytes(l, want) == Granted(l, want) + BodyBytes(Received(l, want), want - Granted(l, want))
              && AfterBody(l, want) == AfterBody(Received(l, want), want - Granted(l, want))
  {
  }

  lemma {:induction false} BodyIgnoresLength(l: Link, length: int, want: int)
    ensures BodyBytes(l, want) == BodyBytes(l.(length := length), want)
    ensures AfterBody(l, want) == AfterBody(l.(length := length), want).(length := l.length)
    decreases want
  {
    if want > 0 && Granted(l, want) > 0 {
      BodyIgnoresLength(Received(l, want), length, want - Granted(l, want));
    }
  }
}
