/** What one message does to the QMI proxy, said in the numbers of the protocol: message types,
    result codes and client ids, without the proxy's own predicates. */
module QmiProxySteps {
  import opened QmiProxy

  // ---------------------------------------------------------------------------
  // Control messages
  // ---------------------------------------------------------------------------

  lemma IndexOfIs<T>(keys: seq<T>, key: T, j: nat)
    requires j < |keys| && keys[j] == key && forall i :: 0 <= i < j ==> keys[i] != key
    ensures IndexOf(keys, key) == j
  {
  }

  /** A control response is the answer to the head of the queue. Successful grants (0x0022)
      append the client id to the list of the head's connection, successful releases (0x0023)
      and revocations (0x0024) take its first occurrence out of it; other responses, and other
      connections' lists, change nothing. A revocation marks a modem reset. */
  lemma ResponseToHead(s: State, m: Frame, k: nat)
    requires m.qmiType == 0 && m.ctlFlags == 1 && s.queue != [] && k < |s.connections|
    ensures var c, after := s.connections[k], Step(s, FromModem(m));
            var id := Client(m.grantType, m.grantId);
            && |after.connections| == |s.connections| && after.queue == s.queue[1..]
            && var c' := after.connections[k];
            && c'.fd == c.fd
            && (c.fd != s.queue[0].fd ==> c'.clients == c.clients)
            && (c.fd == s.queue[0].fd && m.result == 0 && m.error == 0 ==>
                  && (m.ctlType == 0x0022 ==> c'.clients == c.clients + [id])
                  && (m.ctlType == 0x0023 || m.ctlType == 0x0024 ==>
                        && (id !in c.clients ==> c'.clients == c.clients)
                        && (forall j :: 0 <= j < |c.clients| && c.clients[j] == id && id !in c.clients[..j] ==>
                              c'.clients == c.clients[..j] + c.clients[j + 1..])))
            && (m.ctlType !in {0x0022, 0x0023, 0x0024} || m.result != 0 || m.error != 0 ==> c'.clients == c.clients)
    ensures Step(s, FromModem(m)).reset
            <==> s.reset
                 || (m.ctlType == 0x0024
                     && exists i :: 0 <= i < |s.connections| && s.connections[i].fd == s.queue[0].fd)
  {
    hide PerConnection;
    var c, id := s.connections[k], Client(m.grantType, m.grantId);
    forall j | 0 <= j < |c.clients| && c.clients[j] == id && id !in c.clients[..j]
      ensures IndexOf(c.clients, id) == j
    {
      assert forall i :: 0 <= i < j ==> c.clients[..j][i] == c.clients[i];
      IndexOfIs(c.clients, id, j);
    }
  }

  predicate NoRepeats(clients: seq<Client>) { forall i, j :: 0 <= i < j < |clients| ==> clients[i] != clients[j] }

  /** From a list without repeats a released or revoked id is gone, and every other id stays. */
  lemma ReleaseForgets(s: State, m: Frame, k: nat, c: Client)
    requires m.qmiType == 0 && m.ctlFlags == 1 && (m.ctlType == 0x0023 || m.ctlType == 0x0024)
    requires m.result == 0 && m.error == 0 && s.queue != []
    requires k < |s.connections| && s.connections[k].fd == s.queue[0].fd && NoRepeats(s.connections[k].clients)
    ensures var after := Step(s, FromModem(m)).connections;
            && k < |after|
            && (c in after[k].clients <==> c in s.connections[k].clients && c != Client(m.grantType, m.grantId))
  {
    hide Step, NoRepeats;
    ResponseToHead(s, m, k);
    var clients, id := s.connections[k].clients, Client(m.grantType, m.grantId);
    if id in clients {
      var j := FirstPlace(clients, id);
      RemovedOnce(clients, j, c);
    }
  }

  lemma FirstPlace(clients: seq<Client>, id: Client) returns (j: nat)
    requires id in clients && NoRepeats(clients)
    ensures j < |clients| && clients[j] == id && id !in clients[..j]
  {
    j :| 0 <= j < |clients| && clients[j] == id;
  }

  lemma RemovedOnce(clients: seq<Client>, j: nat, c: Client)
    requires NoRepeats(clients) && j < |clients|
    ensures c in clients[..j] + clients[j + 1..] <==> c in clients && c != clients[j]
  {
    assert clients == clients[..j] + [clients[j]] + clients[j + 1..];
  }

  predicate Listed(cs: seq<Connection>, fd: nat) { exists i :: 0 <= i < |cs| && cs[i].fd == fd }

  predicate Distinct(cs: seq<Connection>) { forall i, j :: 0 <= i < j < |cs| ==> cs[i].fd != cs[j].fd }

  lemma {:induction false} OneCopy(cs: seq<Connection>, fd: nat, o: Output)
    requires Distinct(cs)
    ensures PerConnection(cs, fd, o) == if Listed(cs, fd) then [o] else []
  {
    if cs != [] {
      var n := |cs| - 1;
      OneCopy(cs[..n], fd, o);
      if i :| 0 <= i < |cs| && cs[i].fd == fd {
        assert i < n ==> cs[..n][i].fd == fd;
      }
      if Listed(cs[..n], fd) {
        var i :| 0 <= i < n && cs[..n][i].fd == fd;
        assert cs[i].fd == fd;
      }
    }
  }

  /** With distinct descriptors a control response (flags 1) is passed on to the client at the
      head of the queue, once, and then, as after every control message, the request at the
      head goes to the modem, once; what has no connection is not sent. */
  lemma ControlOnTheWire(s: State, m: Frame)
    requires m.qmiType == 0 && Distinct(s.connections)
    ensures var cs := s.connections;
            var answers := m.ctlFlags == 1 && s.queue != [];
            var rest := if answers then s.queue[1..] else s.queue;
            Step(s, FromModem(m)).log
            == s.log + (if answers && Listed(cs, s.queue[0].fd) then [ToClient(s.queue[0].fd, m)] else [])
               + (if rest != [] && Listed(cs, rest[0].fd) then [ToModem(rest[0].frame)] else [])
  {
    hide PerConnection, Answered, Connected;
    var answers := m.ctlFlags == 1 && s.queue != [];
    var after := if answers then AnswerAll(s.connections, s.queue[0].fd, m) else s.connections;
    assert |after| == |s.connections| && forall i :: 0 <= i < |after| ==> after[i].fd == s.connections[i].fd by {
      SameDescriptors();
    }
    if s.queue != [] {
      OneCopy(s.connections, s.queue[0].fd, ToClient(s.queue[0].fd, m));
    }
    var rest := if answers then s.queue[1..] else s.queue;
    if rest != [] {
      SameListed(after, s.connections, rest[0].fd);
      OneCopy(after, rest[0].fd, ToModem(rest[0].frame));
    }
  }

  lemma SameListed(a: seq<Connection>, b: seq<Connection>, fd: nat)
    requires |a| == |b| && forall i :: 0 <= i < |a| ==> a[i].fd == b[i].fd
    ensures Listed(a, fd) == Listed(b, fd)
  {
  }

  lemma SameDescriptors()
    ensures forall c: Connection, m: Frame :: Answered(c, m).fd == c.fd
  {
  }

  /** A control message of a client joins the queue, and is sent at once exactly if the queue
      was empty; a service message is sent at once. */
  lemma RequestFromClient(s: State, fd: nat, m: Frame)
    ensures var after := Step(s, FromClient(fd, m));
            && after.connections == s.connections && after.reset == s.reset
            && after.queue == (if m.qmiType == 0 then s.queue + [Request(fd, m)] else s.queue)
            && after.log == s.log + if m.qmiType == 0 && s.queue != [] then [] else [ToModem(m)]
  {
  }

  /** A connection that ends takes its first queued request with it and nothing else. */
  lemma ConnectionEnds(s: State, k: nat)
    requires k < |s.connections| && forall i :: 0 <= i < k ==> s.connections[i].fd != s.connections[k].fd
    ensures var fd, after := s.connections[k].fd, Step(s, Disconnect(s.connections[k].fd));
            && after.connections == s.connections[..k] + s.connections[k + 1..]
            && after.reset == s.reset && after.log == s.log
            && ((forall i :: 0 <= i < |s.queue| ==> s.queue[i].fd != fd) ==> after.queue == s.queue)
            && (forall j :: 0 <= j < |s.queue| && s.queue[j].fd == fd
                            && (forall i :: 0 <= i < j ==> s.queue[i].fd != fd) ==>
                  after.queue == s.queue[..j] + s.queue[j + 1..])
  {
    var fd := s.connections[k].fd;
    assert ConnectionFds(s.connections)[k] == fd;
    IndexOfIs(ConnectionFds(s.connections), fd, k);
    forall j | 0 <= j < |s.queue| && s.queue[j].fd == fd && (forall i :: 0 <= i < j ==> s.queue[i].fd != fd)
      ensures IndexOf(RequestFds(s.queue), fd) == j
    {
      assert RequestFds(s.queue)[j] == fd;
      IndexOfIs(RequestFds(s.queue), fd, j);
    }
  }

  // ---------------------------------------------------------------------------
  // Service messages
  // ---------------------------------------------------------------------------

  /** Client `j` of connection `i`. */
  datatype Place = Place(i: nat, j: nat)

  predicate Before(p: Place, q: Place) { p.i < q.i || (p.i == q.i && p.j < q.j) }

  predicate InOrder(at: seq<Place>) { forall n, m :: 0 <= n < m < |at| ==> Before(at[n], at[m]) }

  predicate IsPlace(cs: seq<Connection>, p: Place) { p.i < |cs| && p.j < |cs[p.i].clients| }

  function CopiesAt(cs: seq<Connection>, at: seq<Place>, m: Frame): seq<Output>
    requires forall p :: p in at ==> IsPlace(cs, p)
  {
    seq(|at|, n requires 0 <= n < |at| =>
      assert at[n] in at && IsPlace(cs, at[n]); ToClient(cs[at[n].i].fd, m))
  }

  /** One connection's copies. */
  lemma {:induction false} CopiesOfOne(cs: seq<Connection>, i: nat, n: nat, m: Frame) returns (at: seq<Place>)
    requires i < |cs| && n <= |cs[i].clients|
    ensures InOrder(at)
    ensures forall p :: p in at <==>
              p.i == i && p.j < n && cs[i].clients[p.j].qmiType == m.qmiType
              && (m.clientId == 0 || m.clientId == cs[i].clients[p.j].clientId)
    ensures FanOutTo(cs[i].fd, cs[i].clients[..n], m) == CopiesAt(cs, at, m)
    decreases n
  {
    at := [];
    if n > 0 {
      at := CopiesOfOne(cs, i, n - 1, m);
      var c := cs[i].clients[n - 1];
      FanOutToSnoc(cs[i].fd, cs[i].clients, n - 1, m);
      if c.qmiType == m.qmiType && (m.clientId == 0 || m.clientId == c.clientId) {
        assert forall p :: p in at + [Place(i, n - 1)] <==> p in at || p == Place(i, n - 1);
        assert forall k :: 0 <= k < |at| ==> at[k] in at;
        at := at + [Place(i, n - 1)];
      }
    } else {
      assert cs[i].clients[..0] == [];
    }
  }

  /** A service message goes once to every client id that names its service and, unless it is a
      broadcast (client id 0), its client: in the order of the connections and of their lists. */
  lemma ServiceCopies(s: State, m: Frame) returns (at: seq<Place>)
    requires m.qmiType != 0
    ensures InOrder(at)
    ensures forall p :: p in at <==>
              p.i < |s.connections| && p.j < |s.connections[p.i].clients|
              && s.connections[p.i].clients[p.j].qmiType == m.qmiType
              && (m.clientId == 0 || m.clientId == s.connections[p.i].clients[p.j].clientId)
    ensures Step(s, FromModem(m)) == s.(log := s.log + CopiesAt(s.connections, at, m))
  {
    at := CopiesOfAll(s.connections, |s.connections|, m);
    assert s.connections[..|s.connections|] == s.connections;
  }

  lemma {:induction false} CopiesOfAll(cs: seq<Connection>, n: nat, m: Frame) returns (at: seq<Place>)
    requires n <= |cs|
    ensures InOrder(at)
    ensures forall p :: p in at <==>
              p.i < n && p.j < |cs[p.i].clients| && cs[p.i].clients[p.j].qmiType == m.qmiType
              && (m.clientId == 0 || m.clientId == cs[p.i].clients[p.j].clientId)
    ensures FanOut(cs[..n], m) == CopiesAt(cs, at, m)
    decreases n
  {
    at := [];
    if n > 0 {
      hide FanOut, FanOutTo;
      var before := CopiesOfAll(cs, n - 1, m);
      var more := CopiesOfOne(cs, n - 1, |cs[n - 1].clients|, m);
      FanOutSnoc(cs, n - 1, m);
      assert cs[n - 1].clients[..|cs[n - 1].clients|] == cs[n - 1].clients;
      at := before + more;
      assert forall p :: p in at <==> p in before || p in more;
      assert forall k :: 0 <= k < |before| ==> before[k] in before;
      assert forall k :: 0 <= k < |more| ==> more[k] in more;
    } else {
      assert cs[..0] == [];
    }
  }
}
