/** The MBIM proxy: up to 32 clients share one device by marking the transaction ids of
    their requests with their slot number.

    The slot table is an array that the handlers update in place. Over whole runs, an answer
    goes to whoever occupies the slot that its transaction id names, so it reaches the client
    that asked exactly as long as that client still occupies the slot. */
module MbimProxy {
  import opened Options

  const CM_MAX_CLIENT := 32
  const TID_UNIT := 0x100_0000  // 1 << TID_SHIFT; TID_MASK is one less

  datatype Slot = Slot(clientFd: int, clientIdx: nat)

  /** A message handed to a client, by its descriptor and transaction id. */
  datatype Written = Written(fd: int, tid: nat)

  predicate Occupied(s: Slot) { s.clientFd > 0 }

  function WireId(tid: nat, idx: nat): nat { tid % TID_UNIT + idx * TID_UNIT }

  function Mask(tid: nat): nat { tid % TID_UNIT }

  function Shift(tid: nat): nat { tid / TID_UNIT }

  /** The first slot from position `k` on that is free. */
  function FirstFree(slots: seq<Slot>, k: nat): (i: nat)
    requires k <= |slots|
    ensures k <= i <= |slots|
    ensures i < |slots| ==> !Occupied(slots[i])
    ensures forall j :: k <= j < i ==> Occupied(slots[j])
    decreases |slots| - k
  {
    if k == |slots| || !Occupied(slots[k]) then k else FirstFree(slots, k + 1)
  }

  function FirstWithFd(slots: seq<Slot>, fd: int, k: nat): (i: nat)
    requires k <= |slots|
    ensures k <= i <= |slots|
    ensures i < |slots| ==> slots[i].clientFd == fd
    ensures forall j :: k <= j < i ==> slots[j].clientFd != fd
    decreases |slots| - k
  {
    if k == |slots| || slots[k].clientFd == fd then k else FirstWithFd(slots, fd, k + 1)
  }

  function FirstAnswering(slots: seq<Slot>, idx: nat, k: nat): (i: nat)
    requires k <= |slots|
    ensures k <= i <= |slots|
    ensures i < |slots| ==> slots[i].clientIdx == idx && Occupied(slots[i])
    ensures forall j :: k <= j < i ==> !(slots[j].clientIdx == idx && Occupied(slots[j]))
    decreases |slots| - k
  {
    if k == |slots| || (slots[k].clientIdx == idx && Occupied(slots[k])) then k
    else FirstAnswering(slots, idx, k + 1)
  }

  function Connect(slots: seq<Slot>, fd: int): seq<Slot> {
    var i := FirstFree(slots, 0);
    if fd < 0 || i == |slots| then slots else slots[i := Slot(fd, i + 1)]
  }

  /** `clientIdx` stays behind in the freed slot. */
  function Disconnect(slots: seq<Slot>, fd: int): seq<Slot> {
    var i := FirstWithFd(slots, fd, 0);
    if i == |slots| || fd <= 0 then slots else slots[i := Slot(-1, slots[i].clientIdx)]
  }

  function Request(slots: seq<Slot>, fd: int, tid: nat): Option<nat> {
    var i := FirstWithFd(slots, fd, 0);
    if i == |slots| then None else Some(WireId(tid, slots[i].clientIdx))
  }

  function Broadcast(slots: seq<Slot>): seq<Written> {
    if slots == [] then []
    else Broadcast(slots[..|slots| - 1])
         + if Occupied(slots[|slots| - 1]) then [Written(slots[|slots| - 1].clientFd, 0)] else []
  }

  function Response(slots: seq<Slot>, tid: nat): seq<Written> {
    if tid == 0 then Broadcast(slots)
    else
      var i := FirstAnswering(slots, Shift(tid), 0);
      if i == |slots| then [] else [Written(slots[i].clientFd, Mask(tid))]
  }

  class Proxy {
    const clients: array<Slot>

    constructor ()
      ensures clients.Length == CM_MAX_CLIENT && fresh(clients)
      ensures clients[..] == seq(CM_MAX_CLIENT, _ => Slot(0, 0))
    {
      clients := new Slot[CM_MAX_CLIENT](_ => Slot(0, 0));
    }

    /** `handle_client_connect`; `clientFd` is what accept returned. */
    method HandleClientConnect(clientFd: int) returns (ok: bool)
      modifies clients
      ensures clients[..] == Connect(old(clients[..]), clientFd)
      ensures ok <==> clientFd >= 0 && exists i :: 0 <= i < clients.Length && old(clients[i]).clientFd <= 0
      ensures forall i :: ok && 0 <= i < clients.Length && old(clients[i]).clientFd <= 0
                          && (forall j :: 0 <= j < i ==> old(clients[j]).clientFd > 0) ==>
                clients[..] == old(clients[..])[i := Slot(clientFd, i + 1)]
      ensures !ok ==> clients[..] == old(clients[..])
    {
      if clientFd < 0 {
        return false;
      }
      var i := 0;
      while i < clients.Length
        invariant 0 <= i <= clients.Length && clients[..] == old(clients[..])
        invariant forall j :: 0 <= j < i ==> Occupied(clients[j])
      {
        if clients[i].clientFd <= 0 {
          FirstFreeIs(clients[..], i);
          clients[i] := Slot(clientFd, i + 1);
          return true;
        }
        i := i + 1;
      }
      FirstFreeIs(clients[..], i);
      return false;
    }

    /** `handle_client_disconnect`. */
    method HandleClientDisconnect(clientFd: int)
      modifies clients
      ensures clients[..] == Disconnect(old(clients[..]), clientFd)
      ensures forall i :: clientFd > 0 && 0 <= i < clients.Length && old(clients[i]).clientFd == clientFd
                          && (forall j :: 0 <= j < i ==> old(clients[j]).clientFd != clientFd) ==>
                clients[..] == old(clients[..])[i := Slot(-1, old(clients[i]).clientIdx)]
      ensures clientFd <= 0 || (forall i :: 0 <= i < clients.Length ==> old(clients[i]).clientFd != clientFd) ==>
                clients[..] == old(clients[..])
    {
      var i := 0;
      while i < clients.Length
        invariant 0 <= i <= clients.Length && clients[..] == old(clients[..])
        invariant forall j :: 0 <= j < i ==> clients[j].clientFd != clientFd
      {
        if clients[i].clientFd == clientFd {
          FirstWithFdIs(clients[..], clientFd, i);
          if clients[i].clientFd > 0 {
            clients[i] := Slot(-1, clients[i].clientIdx);
          }
          return;
        }
        i := i + 1;
      }
      FirstWithFdIs(clients[..], clientFd, i);
    }

    /** `handle_client_request`: the transaction id that goes to the device, if any does. */
    method HandleClientRequest(clientFd: int, tid: nat) returns (wire: Option<nat>)
      ensures wire == Request(clients[..], clientFd, tid)
      ensures forall i :: 0 <= i < clients.Length && clients[i].clientFd == clientFd
                          && (forall j :: 0 <= j < i ==> clients[j].clientFd != clientFd) ==>
                wire == Some(tid % 0x100_0000 + clients[i].clientIdx * 0x100_0000)
      ensures (forall i :: 0 <= i < clients.Length ==> clients[i].clientFd != clientFd) ==> wire == None
    {
      var i := 0;
      while i < clients.Length
        invariant 0 <= i <= clients.Length
        invariant forall j :: 0 <= j < i ==> clients[j].clientFd != clientFd
      {
        if clients[i].clientFd == clientFd {
          FirstWithFdIs(clients[..], clientFd, i);
          return Some(tid % TID_UNIT + clients[i].clientIdx * TID_UNIT);
        }
        i := i + 1;
      }
      FirstWithFdIs(clients[..], clientFd, i);
      return None;
    }

    /** `handle_device_response`: the copies handed to clients. */
    method HandleDeviceResponse(tid: nat) returns (writes: seq<Written>)
      ensures writes == Response(clients[..], tid)
      ensures forall i :: tid != 0 && 0 <= i < clients.Length
                          && clients[i].clientIdx == tid / 0x100_0000 && clients[i].clientFd > 0
                          && (forall j :: 0 <= j < i ==>
                                clients[j].clientIdx != tid / 0x100_0000 || clients[j].clientFd <= 0) ==>
                writes == [Written(clients[i].clientFd, tid % 0x100_0000)]
      ensures tid != 0 && (forall i :: 0 <= i < clients.Length ==>
                             clients[i].clientIdx != tid / 0x100_0000 || clients[i].clientFd <= 0) ==>
                writes == []
    {
      writes := [];
      if tid == 0 {
        for i := 0 to clients.Length
          invariant writes == Broadcast(clients[..i])
        {
          assert clients[..i + 1][..i] == clients[..i];
          if clients[i].clientFd > 0 {
            writes := writes + [Written(clients[i].clientFd, tid)];
          }
        }
        assert clients[..clients.Length] == clients[..];
      } else {
        var clientIdx := tid / TID_UNIT;
        var i := 0;
        while i < clients.Length
          invariant 0 <= i <= clients.Length && writes == []
          invariant forall j :: 0 <= j < i ==> !(clients[j].clientIdx == clientIdx && Occupied(clients[j]))
        {
          if clients[i].clientIdx == clientIdx && clients[i].clientFd > 0 {
            FirstAnsweringIs(clients[..], clientIdx, i);
            return [Written(clients[i].clientFd, tid % TID_UNIT)];
          }
          i := i + 1;
        }
        FirstAnsweringIs(clients[..], clientIdx, i);
      }
    }
  }

  lemma FirstFreeIs(slots: seq<Slot>, i: nat)
    requires i <= |slots| && (i < |slots| ==> !Occupied(slots[i])) && forall j :: 0 <= j < i ==> Occupied(slots[j])
    ensures FirstFree(slots, 0) == i
  {
  }

  lemma FirstWithFdIs(slots: seq<Slot>, fd: int, i: nat)
    requires i <= |slots| && (i < |slots| ==> slots[i].clientFd == fd)
    requires forall j :: 0 <= j < i ==> slots[j].clientFd != fd
    ensures FirstWithFd(slots, fd, 0) == i
  {
  }

  lemma FirstAnsweringIs(slots: seq<Slot>, idx: nat, i: nat)
    requires i <= |slots| && (i < |slots| ==> slots[i].clientIdx == idx && Occupied(slots[i]))
    requires forall j :: 0 <= j < i ==> !(slots[j].clientIdx == idx && Occupied(slots[j]))
    ensures FirstAnswering(slots, idx, 0) == i
  {
  }

  // ---------------------------------------------------------------------------
  // Whole runs
  // ---------------------------------------------------------------------------

  datatype Event =
    | Connects(fd: int)
    | Disconnects(fd: int)
    | Requests(fd: int, tid: nat)
    | Responds(tid: nat)

  function Slots(es: seq<Event>): (slots: seq<Slot>)
    ensures |slots| == CM_MAX_CLIENT
  {
    if es == [] then seq(CM_MAX_CLIENT, _ => Slot(0, 0))
    else
      var before, e := Slots(es[..|es| - 1]), es[|es| - 1];
      match e
      case Connects(fd) => Connect(before, fd)
      case Disconnects(fd) => Disconnect(before, fd)
      case _ => before
  }

  /** Which connection last took a slot: the position of its connect event in the run. */
  function Session(es: seq<Event>, slot: nat): nat
    requires slot < CM_MAX_CLIENT
  {
    if es == [] then 0
    else
      var before, e := es[..|es| - 1], es[|es| - 1];
      if e.Connects? && e.fd >= 0 && FirstFree(Slots(before), 0) == slot then |es| else Session(before, slot)
  }

  /** A request on its way: who issued it from which slot, and its own transaction id. */
  datatype Pending = Pending(slot: nat, session: nat, tid: nat)

  function Wire(p: Pending): nat { WireId(p.tid, p.slot + 1) }

  /** The requests sent to the device and not answered yet. */
  function Outstanding(es: seq<Event>): set<Pending> {
    if es == [] then {}
    else
      var before, e := es[..|es| - 1], es[|es| - 1];
      match e
      case Requests(fd, tid) =>
        var i := FirstWithFd(Slots(before), fd, 0);
        if i == CM_MAX_CLIENT then Outstanding(before)
        else Outstanding(before) + {Pending(i, Session(before, i), tid)}
      case Responds(tid) => set p | p in Outstanding(before) && Wire(p) != tid
      case _ => Outstanding(before)
  }

  predicate Numbered(slots: seq<Slot>) {
    forall i :: 0 <= i < |slots| ==>
      slots[i].clientIdx in {0, i + 1} && (Occupied(slots[i]) ==> slots[i].clientIdx == i + 1)
  }

  /** Slot `i` carries the number `i + 1` whenever it is in use. */
  lemma {:induction false} SlotsNumbered(es: seq<Event>)
    ensures Numbered(Slots(es))
  {
    if es != [] {
      SlotsNumbered(es[..|es| - 1]);
    }
  }

  /** Marked ids fit 32 bits, are never the broadcast id, name their slot and give back the
      original id; so ids from different slots never meet. */
  lemma WireIds(tid: nat, slot: nat)
    requires slot < CM_MAX_CLIENT
    ensures var w := WireId(tid, slot + 1);
            0 < w < 0x1_0000_0000 && Shift(w) == slot + 1 && Mask(w) == tid % TID_UNIT
  {
  }

  lemma WiresDisjoint(p: Pending, q: Pending)
    requires p.slot < CM_MAX_CLIENT && q.slot < CM_MAX_CLIENT && p.slot != q.slot
    ensures Wire(p) != Wire(q)
  {
    WireIds(p.tid, p.slot);
    WireIds(q.tid, q.slot);
  }

  lemma {:induction false} OutstandingSlots(es: seq<Event>, p: Pending)
    requires p in Outstanding(es)
    ensures p.slot < CM_MAX_CLIENT
  {
    if es != [] {
      var before := es[..|es| - 1];
      if p in Outstanding(before) {
        OutstandingSlots(before, p);
      }
    }
  }

  /** The answer to any outstanding request goes to the present occupant of its slot, with
      the low 24 bits of the original id, and to nobody when the slot is free. */
  lemma AnswerGoesToSlot(es: seq<Event>, p: Pending)
    requires p in Outstanding(es)
    ensures p.slot < CM_MAX_CLIENT
    ensures Response(Slots(es), Wire(p))
            == if Occupied(Slots(es)[p.slot]) then [Written(Slots(es)[p.slot].clientFd, p.tid % TID_UNIT)] else []
  {
    OutstandingSlots(es, p);
    SlotsNumbered(es);
    WireIds(p.tid, p.slot);
    var slots := Slots(es);
    var i := FirstAnswering(slots, p.slot + 1, 0);
    assert i < CM_MAX_CLIENT ==> i == p.slot;
  }

  /** The session that an answer is handed to, and the transaction id it carries. */
  function Receiver(es: seq<Event>, tid: nat): Option<(nat, nat)>
    requires tid != 0
  {
    var i := FirstAnswering(Slots(es), Shift(tid), 0);
    if i == CM_MAX_CLIENT then None else Some((Session(es, i), Mask(tid)))
  }

  /** An answer reaches the connection that asked, with the id it used, exactly when that
      connection still occupies its slot and its id fits 24 bits. */
  lemma AnswerReachesIssuerIff(es: seq<Event>, p: Pending)
    requires p in Outstanding(es)
    ensures Wire(p) != 0 && p.slot < CM_MAX_CLIENT
    ensures Receiver(es, Wire(p)) == Some((p.session, p.tid))
            <==> Occupied(Slots(es)[p.slot]) && Session(es, p.slot) == p.session && p.tid < TID_UNIT
  {
    AnswerGoesToSlot(es, p);
    SlotsNumbered(es);
    WireIds(p.tid, p.slot);
    var i := FirstAnswering(Slots(es), p.slot + 1, 0);
    assert i < CM_MAX_CLIENT ==> i == p.slot;
  }

  /** No slot is given away while a request of its former occupant is outstanding. */
  predicate NoEarlyReuse(es: seq<Event>) {
    es != [] ==>
      var before, e := es[..|es| - 1], es[|es| - 1];
      && NoEarlyReuse(before)
      && (e.Connects? ==> forall p :: p in Outstanding(before) ==> p.slot != FirstFree(Slots(before), 0))
  }

  lemma {:induction false} SessionStays(es: seq<Event>, p: Pending)
    requires NoEarlyReuse(es) && p in Outstanding(es)
    ensures p.slot < CM_MAX_CLIENT && Session(es, p.slot) == p.session
  {
    OutstandingSlots(es, p);
    if es != [] {
      var before := es[..|es| - 1];
      if p in Outstanding(before) {
        SessionStays(before, p);
      }
    }
  }

  /** Without such reuse an answer reaches its issuer with its id, or nobody. */
  lemma AnswerReachesIssuer(es: seq<Event>, p: Pending)
    requires NoEarlyReuse(es) && p in Outstanding(es) && p.tid < TID_UNIT
    ensures Wire(p) != 0
    ensures Receiver(es, Wire(p)) in {Some((p.session, p.tid)), None}
    ensures p.slot < CM_MAX_CLIENT && (Receiver(es, Wire(p)).Some? <==> Occupied(Slots(es)[p.slot]))
  {
    SessionStays(es, p);
    AnswerReachesIssuerIff(es, p);
    AnswerGoesToSlot(es, p);
  }
}

/** The transaction-id counter of an MBIM client (`mbim-cm.c`). */
module MbimTransactionIds {
  import opened Arithmetic

  /** The first id that must not go out: 0x1000000 behind the proxy, else the wrap to 0. */
  function Limit(proxy: bool): nat { if proxy then 0x100_0000 else 0x1_0000_0000 }

  class Counter {
    const proxy: bool
    var transactionId: nat

    constructor (proxy: bool)
      ensures this.proxy == proxy && transactionId == 1
    {
      this.proxy := proxy;
      transactionId := 1;
    }

    /** The `TransactionId++` of the composers. */
    method Compose() returns (id: nat)
      requires transactionId < 0x1_0000_0000
      modifies this
      ensures id == old(transactionId) && transactionId == (old(transactionId) + 1) % 0x1_0000_0000
    {
      id := transactionId;
      transactionId := (transactionId + 1) % 0x1_0000_0000;
    }

    /** The check at the head of `mbim_send_command`: the id that goes out. */
    method Send(id: nat) returns (sent: nat)
      requires id < 0x1_0000_0000
      modifies this
      ensures sent == if id == Limit(proxy) % 0x1_0000_0000 then 1 else id
      ensures transactionId == if id == Limit(proxy) % 0x1_0000_0000 then 2 else old(transactionId)
    {
      sent := id;
      if proxy {
        if id == 0xFFFFFF + 1 {
          transactionId := 1;
          sent := transactionId;
          transactionId := transactionId + 1;
        }
      } else {
        if id == 0 {
          transactionId := 1;
          sent := transactionId;
          transactionId := transactionId + 1;
        }
      }
    }

    /** `n` requests, each composed and then sent: their ids count through 1 up to the last
        allowed id and start over. */
    method Requests(n: nat) returns (ids: seq<nat>)
      requires transactionId == 1
      modifies this
      ensures |ids| == n && forall k :: 0 <= k < n ==> ids[k] == NthId(proxy, k)
    {
      hide NthId;
      NthIdStart(proxy);
      ids := [];
      for k := 0 to n
        invariant |ids| == k && forall j :: 0 <= j < k ==> ids[j] == NthId(proxy, j)
        invariant transactionId == if k == 0 then 1 else (NthId(proxy, k - 1) + 1) % 0x1_0000_0000
      {
        if k > 0 {
          NthIdNext(proxy, k - 1);
        }
        var id := Compose();
        id := Send(id);
        ids := ids + [id];
      }
    }
  }

  function NthId(proxy: bool, k: nat): nat { k % (Limit(proxy) - 1) + 1 }

  lemma NthIdStart(proxy: bool)
    ensures NthId(proxy, 0) == 1
  {
  }

  lemma NthIdNext(proxy: bool, k: nat)
    ensures 0 < NthId(proxy, k) < Limit(proxy)
    ensures NthId(proxy, k + 1) == if NthId(proxy, k) + 1 == Limit(proxy) then 1 else NthId(proxy, k) + 1
  {
    ModNext(k, Limit(proxy) - 1);
  }

  /** Fewer than `Limit - 1` requests apart, two ids are different. */
  lemma IdsDistinct(proxy: bool, i: nat, j: nat)
    requires i < j < i + (Limit(proxy) - 1)
    ensures NthId(proxy, i) != NthId(proxy, j)
  {
    ModDistinct(i, j, Limit(proxy) - 1);
  }
}
