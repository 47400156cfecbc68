/** The multiplexing core of the QMI proxy: many connections share one modem.

    Control messages are serialised through one queue; service messages are routed by the
    client ids that the modem granted to each connection. The handlers of
    `quectel-qmi-proxy.c` are methods of a class that updates its lists in place; each is
    proved equal to a step function, and the runs of that step function are studied below
    (see QmiProxyRuns). The pointer level of the lists is the subject of QList. */
module QmiProxy {

  const TYPE_CTL := 0x00
  const FLAG_RSP := 0x01
  const GET_CLIENT_ID := 0x0022
  const RELEASE_CLIENT_ID := 0x0023
  const REVOKE_CLIENT_ID := 0x0024

  /** The header and control fields of a QMI message; `body` stands for the rest of it. */
  datatype Frame = Frame(qmiType: nat, clientId: nat, ctlFlags: nat, ctlType: nat,
                         result: nat, error: nat, grantType: nat, grantId: nat, body: nat)

  datatype Client = Client(qmiType: nat, clientId: nat)
  datatype Connection = Connection(fd: nat, clients: seq<Client>)
  datatype Request = Request(fd: nat, frame: Frame)
  datatype Output = ToModem(frame: Frame) | ToClient(fd: nat, frame: Frame)

  /** `reset` is `modem_reset_flag`; `log` lists every message the proxy has written. */
  datatype State = State(connections: seq<Connection>, queue: seq<Request>, reset: bool, log: seq<Output>)

  const INITIAL := State([], [], false, [])

  predicate IsCtl(m: Frame) { m.qmiType == TYPE_CTL }

  predicate IsCtlResponse(m: Frame) { IsCtl(m) && m.ctlFlags == FLAG_RSP }

  predicate Succeeded(m: Frame) { m.result == 0 && m.error == 0 }

  predicate IsGrant(m: Frame) { m.ctlType == GET_CLIENT_ID && Succeeded(m) }

  predicate IsRelease(m: Frame) { m.ctlType in {RELEASE_CLIENT_ID, REVOKE_CLIENT_ID} && Succeeded(m) }

  function Key(m: Frame): Client { Client(m.grantType, m.grantId) }

  // ---------------------------------------------------------------------------
  // What the handlers do
  // ---------------------------------------------------------------------------

  /** The first position of `key`, or the length when it does not occur. */
  function IndexOf<T(==)>(keys: seq<T>, key: T): (k: nat)
    ensures k <= |keys| && (k < |keys| ==> keys[k] == key) && forall i :: 0 <= i < k ==> keys[i] != key
  {
    if keys == [] || keys[0] == key then 0 else 1 + IndexOf(keys[1..], key)
  }

  function Without<T>(s: seq<T>, k: nat): seq<T> {
    if k < |s| then s[..k] + s[k + 1..] else s
  }

  function ConnectionFds(cs: seq<Connection>): (fds: seq<nat>)
    ensures |fds| == |cs|
  {
    seq(|cs|, i requires 0 <= i < |cs| => cs[i].fd)
  }

  function RequestFds(queue: seq<Request>): (fds: seq<nat>)
    ensures |fds| == |queue|
  {
    seq(|queue|, i requires 0 <= i < |queue| => queue[i].fd)
  }

  /** The client list of a connection that is handed a control response. */
  function Answered(c: Connection, m: Frame): Connection {
    if IsGrant(m) then c.(clients := c.clients + [Key(m)])
    else if IsRelease(m) then c.(clients := Without(c.clients, IndexOf(c.clients, Key(m))))
    else c
  }

  function AnswerAll(cs: seq<Connection>, fd: nat, m: Frame): seq<Connection> {
    seq(|cs|, i requires 0 <= i < |cs| => if cs[i].fd == fd then Answered(cs[i], m) else cs[i])
  }

  /** One copy of `o` for each connection with descriptor `fd`. */
  function PerConnection(cs: seq<Connection>, fd: nat, o: Output): seq<Output> {
    if cs == [] then []
    else PerConnection(cs[..|cs| - 1], fd, o) + if cs[|cs| - 1].fd == fd then [o] else []
  }

  predicate Matches(c: Client, m: Frame) {
    m.qmiType == c.qmiType && (m.clientId == 0 || m.clientId == c.clientId)
  }

  function FanOutTo(fd: nat, clients: seq<Client>, m: Frame): seq<Output> {
    if clients == [] then []
    else FanOutTo(fd, clients[..|clients| - 1], m)
         + if Matches(clients[|clients| - 1], m) then [ToClient(fd, m)] else []
  }

  function FanOut(cs: seq<Connection>, m: Frame): seq<Output> {
    if cs == [] then []
    else FanOut(cs[..|cs| - 1], m) + FanOutTo(cs[|cs| - 1].fd, cs[|cs| - 1].clients, m)
  }

  predicate Connected(cs: seq<Connection>, fd: nat) {
    exists i :: 0 <= i < |cs| && cs[i].fd == fd
  }

  /** A control response is taken as the answer to the head of the queue. */
  function AnswerHead(s: State, m: Frame): State
    requires s.queue != []
  {
    var fd := s.queue[0].fd;
    State(AnswerAll(s.connections, fd, m), s.queue[1..],
          s.reset || (m.ctlType == REVOKE_CLIENT_ID && Connected(s.connections, fd)),
          s.log + PerConnection(s.connections, fd, ToClient(fd, m)))
  }

  /** After any control message the head of the queue, if there is one, goes to the modem. */
  function SendHead(s: State): State {
    if s.queue == [] then s
    else s.(log := s.log + PerConnection(s.connections, s.queue[0].fd, ToModem(s.queue[0].frame)))
  }

  function FromModemStep(s: State, m: Frame): State {
    if IsCtlResponse(m) && s.queue != [] then SendHead(AnswerHead(s, m))
    else if IsCtl(m) then SendHead(s)
    else s.(log := s.log + FanOut(s.connections, m))
  }

  function FromClientStep(s: State, fd: nat, m: Frame): State {
    if IsCtl(m) then
      s.(queue := s.queue + [Request(fd, m)], log := s.log + if s.queue == [] then [ToModem(m)] else [])
    else s.(log := s.log + [ToModem(m)])
  }

  /** `ClientFd` is a byte. */
  function AcceptStep(s: State, clientfd: int): State {
    s.(connections := s.connections + [Connection(clientfd % 256, [])])
  }

  /** Only the first queued control message of the connection is dropped with it. */
  function DisconnectStep(s: State, fd: nat): State {
    if Connected(s.connections, fd) then
      s.(connections := Without(s.connections, IndexOf(ConnectionFds(s.connections), fd)),
         queue := Without(s.queue, IndexOf(RequestFds(s.queue), fd)))
    else s
  }

  datatype Event =
    | Accept(clientfd: int)
    | Disconnect(fd: nat)
    | FromClient(fd: nat, frame: Frame)
    | FromModem(frame: Frame)

  function Step(s: State, e: Event): State {
    match e
    case Accept(clientfd) => AcceptStep(s, clientfd)
    case Disconnect(fd) => DisconnectStep(s, fd)
    case FromClient(fd, m) => FromClientStep(s, fd, m)
    case FromModem(m) => FromModemStep(s, m)
  }

  // ---------------------------------------------------------------------------
  // The handlers
  // ---------------------------------------------------------------------------

  class Proxy {
    var connections: seq<Connection>
    var queue: seq<Request>
    var reset: bool
    var log: seq<Output>

    function Model(): State
      reads this
    {
      State(connections, queue, reset, log)
    }

    constructor ()
      ensures Model() == INITIAL
    {
      connections, queue, reset, log := [], [], false, [];
    }

    /** `accept_qmi_connection`; a failed accept leaves -1 in `clientfd`. */
    method AcceptQmiConnection(clientfd: int)
      modifies this
      ensures Model() == AcceptStep(old(Model()), clientfd)
    {
      connections := connections + [Connection(clientfd % 256, [])];
    }

    /** `cleanup_qmi_connection`. */
    method CleanupQmiConnection(clientfd: nat)
      modifies this
      ensures Model() == DisconnectStep(old(Model()), clientfd)
    {
      var k := 0;
      while k < |connections|
        invariant 0 <= k <= |connections| && Model() == old(Model())
        invariant forall i :: 0 <= i < k ==> connections[i].fd != clientfd
      {
        if connections[k].fd == clientfd {
          assert ConnectionFds(connections)[k] == clientfd;
          assert forall i :: 0 <= i < k ==> ConnectionFds(connections)[i] == connections[i].fd;
          assert IndexOf(ConnectionFds(connections), clientfd) == k;
          ghost var qs := queue;
          assert forall i :: 0 <= i < |qs| ==> RequestFds(qs)[i] == qs[i].fd;
          var j := 0;
          while j < |queue|
            invariant 0 <= j <= |queue| && Model() == old(Model())
            invariant forall i :: 0 <= i < j ==> queue[i].fd != clientfd
          {
            if queue[j].fd == clientfd {
              queue := queue[..j] + queue[j + 1..];
              break;
            }
            j := j + 1;
          }
          assert IndexOf(RequestFds(qs), clientfd) == j;
          connections := connections[..k] + connections[k + 1..];
          return;
        }
        k := k + 1;
      }
    }

    /** `get_client_id`. */
    method GetClientId(k: nat, m: Frame)
      requires k < |connections|
      modifies `connections
      ensures connections == old(connections)[k := if Succeeded(m)
                then old(connections)[k].(clients := old(connections)[k].clients + [Key(m)]) else old(connections)[k]]
    {
      if Succeeded(m) {
        var c := connections[k];
        connections := connections[k := c.(clients := c.clients + [Client(m.grantType, m.grantId)])];
      }
    }

    /** `release_client_id`. */
    method ReleaseClientId(k: nat, m: Frame)
      requires k < |connections|
      modifies `connections
      ensures connections == old(connections)[k := if Succeeded(m)
                then old(connections)[k].(clients :=
                    Without(old(connections)[k].clients, IndexOf(old(connections)[k].clients, Key(m))))
                else old(connections)[k]]
    {
      if Succeeded(m) {
        var c := connections[k];
        var j := 0;
        while j < |c.clients|
          invariant 0 <= j <= |c.clients| && connections == old(connections)
          invariant forall i :: 0 <= i < j ==> c.clients[i] != Key(m)
        {
          if m.grantType == c.clients[j].qmiType && m.grantId == c.clients[j].clientId {
            connections := connections[k := c.(clients := c.clients[..j] + c.clients[j + 1..])];
            return;
          }
          j := j + 1;
        }
      }
    }

    /** `recv_qmi` once the proxy serves clients. */
    method RecvQmi(m: Frame)
      modifies this
      ensures Model() == FromModemStep(old(Model()), m)
    {
      if m.qmiType == TYPE_CTL {
        if m.ctlFlags == FLAG_RSP {
          if queue != [] {
            AnswerQueueHead(m);
          }
        }
        if queue != [] {
          SendQueueHead();
        }
      } else {
        Distribute(m);
      }
    }

    /** What the answer means to one matching connection. */
    method HandOver(k: nat, m: Frame)
      requires k < |connections|
      modifies `connections, `reset, `log
      ensures connections == old(connections)[k := Answered(old(connections)[k], m)]
      ensures reset == (old(reset) || m.ctlType == REVOKE_CLIENT_ID)
      ensures log == old(log) + [ToClient(old(connections)[k].fd, m)]
    {
      log := log + [ToClient(connections[k].fd, m)];
      if m.ctlType == GET_CLIENT_ID {
        GetClientId(k, m);
      } else if m.ctlType == RELEASE_CLIENT_ID || m.ctlType == REVOKE_CLIENT_ID {
        ReleaseClientId(k, m);
        if m.ctlType == REVOKE_CLIENT_ID {
          reset := true;
        }
      }
    }

    method AnswerQueueHead(m: Frame)
      requires queue != []
      modifies this
      ensures Model() == AnswerHead(old(Model()), m)
    {
      var fd := queue[0].fd;
      ghost var cs := connections;
      hide Answered, PerConnection, Connected;
      PerConnectionNone(fd, ToClient(fd, m));
      for i := 0 to |connections|
        invariant |connections| == |cs| && queue == old(queue)
        invariant forall j :: 0 <= j < |cs| ==>
                    connections[j] == if j < i && cs[j].fd == fd then Answered(cs[j], m) else cs[j]
        invariant log == old(log) + PerConnection(cs[..i], fd, ToClient(fd, m))
        invariant reset == (old(reset) || (m.ctlType == REVOKE_CLIENT_ID && Connected(cs[..i], fd)))
      {
        PerConnectionSnoc(cs, i, fd, ToClient(fd, m));
        ConnectedSnoc(cs, i, fd);
        if connections[i].fd == fd {
          HandOver(i, m);
        }
      }
      assert cs[..|cs|] == cs;
      assert connections == AnswerAll(cs, fd, m);
      queue := queue[1..];
    }

    method SendQueueHead()
      requires queue != []
      modifies `log
      ensures Model() == SendHead(old(Model()))
    {
      for i := 0 to |connections|
        invariant log == old(log) + PerConnection(connections[..i], queue[0].fd, ToModem(queue[0].frame))
      {
        assert connections[..i + 1][..i] == connections[..i];
        if connections[i].fd == queue[0].fd {
          log := log + [ToModem(queue[0].frame)];
        }
      }
      assert connections[..|connections|] == connections;
    }

    method Distribute(m: Frame)
      modifies `log
      ensures log == old(log) + FanOut(connections, m)
    {
      hide FanOut, FanOutTo;
      FanOutNone(m);
      for i := 0 to |connections|
        invariant log == old(log) + FanOut(connections[..i], m)
      {
        FanOutSnoc(connections, i, m);
        FanOutToNone(connections[i].fd, m);
        var c := connections[i];
        ghost var before := log;
        for j := 0 to |c.clients|
          invariant log == before + FanOutTo(c.fd, c.clients[..j], m)
        {
          FanOutToSnoc(c.fd, c.clients, j, m);
          if m.qmiType == c.clients[j].qmiType {
            if m.clientId == 0 || m.clientId == c.clients[j].clientId {
              log := log + [ToClient(c.fd, m)];
            }
          }
        }
        assert c.clients[..|c.clients|] == c.clients;
      }
      assert connections[..|connections|] == connections;
    }

    /** `send_qmi` once the proxy serves clients. */
    method SendQmi(m: Frame, clientfd: nat)
      modifies this
      ensures Model() == FromClientStep(old(Model()), clientfd, m)
    {
      if m.qmiType == TYPE_CTL {
        if queue == [] {
          log := log + [ToModem(m)];
        }
        queue := queue + [Request(clientfd, m)];
      } else {
        log := log + [ToModem(m)];
      }
    }
  }

  lemma FanOutNone(m: Frame)
    ensures FanOut([], m) == []
  {
  }

  lemma FanOutSnoc(cs: seq<Connection>, i: nat, m: Frame)
    requires i < |cs|
    ensures FanOut(cs[..i + 1], m) == FanOut(cs[..i], m) + FanOutTo(cs[i].fd, cs[i].clients, m)
  {
    assert cs[..i + 1][..i] == cs[..i];
  }

  lemma FanOutToNone(fd: nat, m: Frame)
    ensures FanOutTo(fd, [], m) == []
  {
  }

  lemma FanOutToSnoc(fd: nat, clients: seq<Client>, j: nat, m: Frame)
    requires j < |clients|
    ensures FanOutTo(fd, clients[..j + 1], m)
            == FanOutTo(fd, clients[..j], m)
               + if m.qmiType == clients[j].qmiType && (m.clientId == 0 || m.clientId == clients[j].clientId) then
                   [ToClient(fd, m)]
                 else []
  {
    assert clients[..j + 1][..j] == clients[..j];
  }

  lemma PerConnectionNone(fd: nat, o: Output)
    ensures PerConnection([], fd, o) == [] && !Connected([], fd)
  {
  }

  lemma PerConnectionSnoc(cs: seq<Connection>, i: nat, fd: nat, o: Output)
    requires i < |cs|
    ensures PerConnection(cs[..i + 1], fd, o) == PerConnection(cs[..i], fd, o) + if cs[i].fd == fd then [o] else []
  {
    assert cs[..i + 1][..i] == cs[..i];
  }

  lemma ConnectedSnoc(cs: seq<Connection>, i: nat, fd: nat)
    requires i < |cs|
    ensures Connected(cs[..i + 1], fd) <==> Connected(cs[..i], fd) || cs[i].fd == fd
  {
    assert cs[..i + 1][i] == cs[i];
    if Connected(cs[..i], fd) {
      var j :| 0 <= j < i && cs[..i][j].fd == fd;
      assert cs[..i + 1][j].fd == fd;
    }
    if Connected(cs[..i + 1], fd) {
      var j :| 0 <= j <= i && cs[..i + 1][j].fd == fd;
      assert j < i ==> cs[..i][j].fd == fd;
    }
  }
}
