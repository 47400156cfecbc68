/** Who is connected to the MBIM proxy: over every run the occupied slots are exactly the
    clients that were accepted and have not left, so slots are neither lost nor shared. */
module MbimClients {
  import opened MbimProxy

  /** The descriptors that were accepted, while fewer than 32 were there, and have not been
      closed again. */
  function Present(es: seq<Event>): set<int> {
    if es == [] then {}
    else
      var before := Present(es[..|es| - 1]);
      match es[|es| - 1]
      case Connects(fd) => if fd > 0 && |before| < 32 then before + {fd} else before
      case Disconnects(fd) => before - {fd}
      case _ => before
  }

  /** A new connection never has the descriptor of one that is still there. */
  predicate DistinctRun(es: seq<Event>) {
    es == []
    || (DistinctRun(es[..|es| - 1])
        && (es[|es| - 1].Connects? ==> es[|es| - 1].fd !in Present(es[..|es| - 1])))
  }

  function Used(slots: seq<Slot>): set<nat> { set i: nat | i < |slots| && slots[i].clientFd > 0 }

  predicate Unshared(slots: seq<Slot>) {
    forall i, j :: 0 <= i < j < |slots| && slots[i].clientFd > 0 ==> slots[i].clientFd != slots[j].clientFd
  }

  /** Each client in one slot, each used slot with a client. */
  ghost predicate Hosts(slots: seq<Slot>, present: set<int>) {
    && Unshared(slots)
    && (forall i :: 0 <= i < |slots| && slots[i].clientFd > 0 ==> slots[i].clientFd in present)
    && (forall fd :: fd in present ==> fd > 0 && HasSlot(slots, fd))
  }

  predicate HasSlot(slots: seq<Slot>, fd: int) { exists i :: 0 <= i < |slots| && slots[i].clientFd == fd }

  function Below(n: nat): (s: set<nat>)
    ensures |s| == n && forall i: nat :: i in s <==> i < n
  {
    if n == 0 then {} else Below(n - 1) + {n - 1}
  }

  lemma SubsetSize<T>(a: set<T>, b: set<T>)
    requires a <= b
    ensures |a| <= |b| && (a != b ==> |a| < |b|)
  {
    assert b == a + (b - a);
  }

  /** A slot is free exactly if fewer are used than there are. */
  lemma FreeIffFewer(slots: seq<Slot>)
    ensures |Used(slots)| < |slots| <==> exists i :: 0 <= i < |slots| && slots[i].clientFd <= 0
  {
    var all := Below(|slots|);
    SubsetSize(Used(slots), all);
    if Used(slots) != all {
      var i :| i in all && i !in Used(slots);
      assert slots[i].clientFd <= 0;
    }
    if i :| 0 <= i < |slots| && slots[i].clientFd <= 0 {
      assert i in all && i !in Used(slots);
    }
  }

  lemma SlotTaken(slots: seq<Slot>, present: set<int>, fd: int, i: nat)
    requires Hosts(slots, present) && fd !in present && i < |slots| && slots[i].clientFd <= 0 && fd > 0
    ensures Hosts(slots[i := Slot(fd, i + 1)], present + {fd})
    ensures Used(slots[i := Slot(fd, i + 1)]) == Used(slots) + {i} && i !in Used(slots)
  {
    var after := slots[i := Slot(fd, i + 1)];
    forall f | f in present + {fd} ensures HasSlot(after, f) {
      if f == fd {
        assert after[i].clientFd == fd;
      } else {
        var k :| 0 <= k < |slots| && slots[k].clientFd == f;
        assert after[k].clientFd == f;
      }
    }
  }

  lemma SlotLeft(slots: seq<Slot>, present: set<int>, fd: int, i: nat, s: Slot)
    requires Hosts(slots, present) && i < |slots| && slots[i].clientFd == fd && s.clientFd <= 0
    ensures Hosts(slots[i := s], present - {fd})
    ensures Used(slots[i := s]) == Used(slots) - {i} && (fd > 0 ==> i in Used(slots) && fd in present)
  {
    var after := slots[i := s];
    forall f | f in present - {fd} ensures HasSlot(after, f) {
      var k :| 0 <= k < |slots| && slots[k].clientFd == f;
      assert after[k].clientFd == f;
    }
  }

  /** The slots hold exactly the clients, one slot each, and no other slot is used. */
  ghost predicate Exact(slots: seq<Slot>, present: set<int>) {
    Hosts(slots, present) && |Used(slots)| == |present|
  }

  lemma ConnectExact(slots: seq<Slot>, present: set<int>, fd: int)
    requires Exact(slots, present) && |slots| == 32 && fd !in present
    ensures Exact(Connect(slots, fd), if fd > 0 && |present| < 32 then present + {fd} else present)
  {
    hide Hosts;
    FreeIffFewer(slots);
    var i := FirstFree(slots, 0);
    if fd > 0 && i < 32 {
      SlotTaken(slots, present, fd, i);
    } else if fd == 0 && i < 32 {
      NotPresent(slots, present, slots[i].clientFd);
      SlotLeft(slots, present, slots[i].clientFd, i, Slot(0, i + 1));
      assert present - {slots[i].clientFd} == present && Used(slots) - {i} == Used(slots);
    }
  }

  lemma NotPresent(slots: seq<Slot>, present: set<int>, fd: int)
    requires Hosts(slots, present) && (fd <= 0 || !HasSlot(slots, fd))
    ensures fd !in present
  {
  }

  lemma DisconnectExact(slots: seq<Slot>, present: set<int>, fd: int)
    requires Exact(slots, present)
    ensures Exact(Disconnect(slots, fd), present - {fd})
  {
    hide Hosts;
    var i := FirstWithFd(slots, fd, 0);
    if i < |slots| && fd > 0 {
      SlotLeft(slots, present, fd, i, Slot(-1, slots[i].clientIdx));
    } else {
      NotPresent(slots, present, fd);
      assert present - {fd} == present;
    }
  }

  /** In every run the occupied slots hold exactly the clients that are there, one slot each. */
  lemma {:induction false} SlotsAreExact(es: seq<Event>)
    requires DistinctRun(es)
    ensures Exact(Slots(es), Present(es))
  {
    if es != [] {
      hide Exact;
      var before := es[..|es| - 1];
      SlotsAreExact(before);
      match es[|es| - 1]
      case Connects(fd) => ConnectExact(Slots(before), Present(before), fd);
      case Disconnects(fd) => DisconnectExact(Slots(before), Present(before), fd);
      case _ =>
    } else {
      assert Used(Slots([])) == {};
    }
  }

  /** In every run: a descriptor is in an occupied slot if and only if it was accepted and has
      not left, and then in one slot only; as many slots are free as clients are missing to 32,
      so the next client is turned away exactly when 32 are there. */
  lemma SlotsOfRun(es: seq<Event>, fd: int)
    requires DistinctRun(es) && fd > 0
    ensures var slots := Slots(es);
            && (fd in Present(es) <==> exists i :: 0 <= i < |slots| && slots[i].clientFd == fd)
            && (forall i, j :: 0 <= i < j < |slots| && slots[i].clientFd == fd ==> slots[j].clientFd != fd)
            && |Used(slots)| == |Present(es)| <= 32
            && (Connect(slots, fd) == slots <==> |Present(es)| == 32)
  {
    hide Exact, DistinctRun, Present, Slots;
    SlotsAreExact(es);
    ExactSlots(Slots(es), Present(es), fd);
  }

  lemma ExactSlots(slots: seq<Slot>, present: set<int>, fd: int)
    requires Exact(slots, present) && |slots| == 32 && fd > 0
    ensures fd in present <==> exists i :: 0 <= i < |slots| && slots[i].clientFd == fd
    ensures forall i, j :: 0 <= i < j < |slots| && slots[i].clientFd == fd ==> slots[j].clientFd != fd
    ensures |Used(slots)| == |present| <= 32
    ensures Connect(slots, fd) == slots <==> |present| == 32
  {
    HostsWhom(slots, present, fd);
    hide Connect, Used, Hosts, Below;
    FreeIffFewer(slots);
    ConnectChanges(slots, fd);
    SubsetSize(Used(slots), Below(32)) by {
      UsedBelow(slots);
    }
  }

  lemma HostsWhom(slots: seq<Slot>, present: set<int>, fd: int)
    requires Hosts(slots, present) && fd > 0
    ensures fd in present <==> exists i :: 0 <= i < |slots| && slots[i].clientFd == fd
    ensures forall i, j :: 0 <= i < j < |slots| && slots[i].clientFd == fd ==> slots[j].clientFd != fd
  {
  }

  lemma UsedBelow(slots: seq<Slot>)
    ensures Used(slots) <= Below(|slots|)
  {
  }

  lemma ConnectChanges(slots: seq<Slot>, fd: int)
    requires fd > 0
    ensures Connect(slots, fd) != slots <==> exists i :: 0 <= i < |slots| && slots[i].clientFd <= 0
  {
    var i := FirstFree(slots, 0);
    if i < |slots| {
      assert slots[i := Slot(fd, i + 1)][i] != slots[i];
    }
  }

  lemma HasSlotSnoc(slots: seq<Slot>, fd: int)
    requires slots != []
    ensures HasSlot(slots, fd) <==> HasSlot(slots[..|slots| - 1], fd) || slots[|slots| - 1].clientFd == fd
  {
    var n := |slots| - 1;
    if i :| 0 <= i < n && slots[..n][i].clientFd == fd {
      assert slots[i].clientFd == fd;
    }
    if i :| 0 <= i <= n && slots[i].clientFd == fd {
      assert i < n ==> slots[..n][i].clientFd == fd;
    }
  }

  lemma {:induction false} BroadcastOnce(slots: seq<Slot>, fd: int)
    requires fd > 0 && Unshared(slots)
    ensures multiset(Broadcast(slots))[Written(fd, 0)] == if HasSlot(slots, fd) then 1 else 0
    ensures forall w :: w in Broadcast(slots) ==> w.tid == 0
  {
    if slots != [] {
      var n := |slots| - 1;
      BroadcastOnce(slots[..n], fd);
      HasSlotSnoc(slots, fd);
      if HasSlot(slots[..n], fd) {
        var i :| 0 <= i < n && slots[..n][i].clientFd == fd;
        assert slots[i].clientFd == fd;
      }
    }
  }

  /** An unsolicited message of the device goes to every client that is there, once. */
  lemma BroadcastReaches(es: seq<Event>, fd: int)
    requires DistinctRun(es) && fd > 0
    ensures multiset(Response(Slots(es), 0))[Written(fd, 0)] == if fd in Present(es) then 1 else 0
    ensures forall w :: w in Response(Slots(es), 0) ==> w.tid == 0
  {
    SlotsAreExact(es);
    BroadcastOnce(Slots(es), fd);
  }
}
