/** What holds over whole runs of the QMI proxy: control requests are serialised, answers go
    back to whoever asked, and the client-id registry routes service messages. */
module QmiProxyRuns {
  import opened QmiProxy

  function Run(es: seq<Event>): State {
    if es == [] then INITIAL else Step(Run(es[..|es| - 1]), es[|es| - 1])
  }

  // ---------------------------------------------------------------------------
  // Reading a run from the outside
  // ---------------------------------------------------------------------------

  /** The control requests that clients handed to the proxy, in order of arrival. */
  function Issued(es: seq<Event>): seq<Request> {
    if es == [] then [] else Issued(es[..|es| - 1]) + IssuedBy(es[|es| - 1])
  }

  function IssuedBy(e: Event): seq<Request> {
    if e.FromClient? && IsCtl(e.frame) then [Request(e.fd, e.frame)] else []
  }

  /** The control messages that the modem sent, in order. */
  function Responses(es: seq<Event>): seq<Frame> {
    if es == [] then [] else Responses(es[..|es| - 1]) + ResponsesIn(es[|es| - 1])
  }

  function ResponsesIn(e: Event): seq<Frame> {
    if e.FromModem? && IsCtl(e.frame) then [e.frame] else []
  }

  function CtlToModem(log: seq<Output>): seq<Frame> {
    if log == [] then []
    else CtlToModem(log[..|log| - 1])
         + match log[|log| - 1]
           case ToModem(m) => if IsCtl(m) then [m] else []
           case ToClient(_, _) => []
  }

  function CtlToClients(log: seq<Output>): seq<Output> {
    if log == [] then []
    else CtlToClients(log[..|log| - 1])
         + match log[|log| - 1]
           case ToClient(fd, m) => if IsCtl(m) then [ToClient(fd, m)] else []
           case ToModem(_) => []
  }

  function Frames(requests: seq<Request>): seq<Frame> {
    seq(|requests|, i requires 0 <= i < |requests| => requests[i].frame)
  }

  /** The `k`-th answer addressed to whoever issued the `k`-th request. */
  function Addressed(requests: seq<Request>, answers: seq<Frame>): seq<Output>
    requires |answers| <= |requests|
  {
    seq(|answers|, k requires 0 <= k < |answers| => ToClient(requests[k].fd, answers[k]))
  }

  predicate DistinctFds(cs: seq<Connection>) {
    forall i, j :: 0 <= i < j < |cs| ==> cs[i].fd != cs[j].fd
  }

  /** A new descriptor is not in use; a client that leaves has no control request
      waiting; the modem's control messages answer requests that it has been sent. */
  predicate LegalControl(s: State, answered: nat, e: Event) {
    match e
    case Accept(clientfd) => !Connected(s.connections, clientfd % 256)
    case Disconnect(fd) => Connected(s.connections, fd) && fd !in RequestFds(s.queue)
    case FromClient(fd, _) => Connected(s.connections, fd)
    case FromModem(m) => IsCtl(m) ==> IsCtlResponse(m) && answered < |CtlToModem(s.log)|
  }

  predicate ControlRun(es: seq<Event>) {
    es != [] ==>
      var before := es[..|es| - 1];
      ControlRun(before) && LegalControl(Run(before), |Responses(before)|, es[|es| - 1])
  }

  // ---------------------------------------------------------------------------
  // Small facts
  // ---------------------------------------------------------------------------

  lemma {:induction false} CtlConcat(a: seq<Output>, b: seq<Output>)
    ensures CtlToModem(a + b) == CtlToModem(a) + CtlToModem(b)
    ensures CtlToClients(a + b) == CtlToClients(a) + CtlToClients(b)
  {
    if b == [] {
      assert a + b == a;
    } else {
      assert (a + b)[..|a + b| - 1] == a + b[..|b| - 1];
      CtlConcat(a, b[..|b| - 1]);
    }
  }

  lemma {:induction false} PerConnectionOnce(cs: seq<Connection>, fd: nat, o: Output)
    requires DistinctFds(cs)
    ensures PerConnection(cs, fd, o) == if Connected(cs, fd) then [o] else []
  {
    if cs != [] {
      var rest := cs[..|cs| - 1];
      PerConnectionOnce(rest, fd, o);
      ConnectedSnoc(cs, |cs| - 1, fd);
      assert cs[..|cs|] == cs;
      assert cs[|cs| - 1].fd == fd ==> !Connected(rest, fd);
    }
  }

  lemma {:induction false} FanOutIsService(cs: seq<Connection>, m: Frame)
    requires !IsCtl(m)
    ensures CtlToModem(FanOut(cs, m)) == [] && CtlToClients(FanOut(cs, m)) == []
  {
    if cs != [] {
      FanOutIsService(cs[..|cs| - 1], m);
      var c := cs[|cs| - 1];
      FanOutToIsService(c.fd, c.clients, m);
      CtlConcat(FanOut(cs[..|cs| - 1], m), FanOutTo(c.fd, c.clients, m));
    }
  }

  lemma {:induction false} FanOutToIsService(fd: nat, clients: seq<Client>, m: Frame)
    requires !IsCtl(m)
    ensures CtlToModem(FanOutTo(fd, clients, m)) == [] && CtlToClients(FanOutTo(fd, clients, m)) == []
  {
    if clients != [] {
      hide CtlToModem, CtlToClients;
      var rest := FanOutTo(fd, clients[..|clients| - 1], m);
      FanOutToIsService(fd, clients[..|clients| - 1], m);
      CtlConcat(rest, [ToClient(fd, m)]);
      Singletons(ToClient(fd, m));
      assert rest + [] == rest;
    }
  }

  lemma Singletons(o: Output)
    ensures CtlToModem([o]) == if o.ToModem? && IsCtl(o.frame) then [o.frame] else []
    ensures CtlToClients([o]) == if o.ToClient? && IsCtl(o.frame) then [o] else []
  {
  }

  // ---------------------------------------------------------------------------
  // Control requests are serialised
  // ---------------------------------------------------------------------------

  /** The first `sent` requests have been sent, the first `|answers|` of them answered. */
  predicate Tracked(s: State, issued: seq<Request>, answers: seq<Frame>, sent: nat) {
    && DistinctFds(s.connections)
    && (forall i :: 0 <= i < |s.queue| ==> Connected(s.connections, s.queue[i].fd) && IsCtl(s.queue[i].frame))
    && |answers| <= sent <= |issued|
    && s.queue == issued[|answers|..]
    && CtlToModem(s.log) == Frames(issued[..sent])
    && CtlToClients(s.log) == Addressed(issued, answers)
  }

  /** All requests up to the head of the queue have been sent, all before it answered. */
  predicate Serialised(s: State, issued: seq<Request>, answers: seq<Frame>) {
    Tracked(s, issued, answers, |answers| + if s.queue == [] then 0 else 1)
  }

  lemma AnswerAllFds(cs: seq<Connection>, fd: nat, m: Frame)
    ensures |AnswerAll(cs, fd, m)| == |cs|
    ensures forall i :: 0 <= i < |cs| ==> AnswerAll(cs, fd, m)[i].fd == cs[i].fd
    ensures forall x :: Connected(AnswerAll(cs, fd, m), x) <==> Connected(cs, x)
  {
    var after := AnswerAll(cs, fd, m);
    forall x
      ensures Connected(after, x) <==> Connected(cs, x)
    {
      if Connected(cs, x) {
        var i :| 0 <= i < |cs| && cs[i].fd == x;
        assert after[i].fd == x;
      }
    }
  }

  lemma LogToModem(log: seq<Output>, m: Frame)
    ensures CtlToModem(log + [ToModem(m)]) == CtlToModem(log) + if IsCtl(m) then [m] else []
    ensures CtlToClients(log + [ToModem(m)]) == CtlToClients(log)
  {
    hide CtlToModem, CtlToClients;
    CtlConcat(log, [ToModem(m)]);
    Singletons(ToModem(m));
  }

  lemma LogToClient(log: seq<Output>, fd: nat, m: Frame)
    ensures CtlToModem(log + [ToClient(fd, m)]) == CtlToModem(log)
    ensures CtlToClients(log + [ToClient(fd, m)]) == CtlToClients(log) + if IsCtl(m) then [ToClient(fd, m)] else []
  {
    hide CtlToModem, CtlToClients;
    CtlConcat(log, [ToClient(fd, m)]);
    Singletons(ToClient(fd, m));
  }

  lemma FramesSnoc(issued: seq<Request>, n: nat)
    requires n < |issued|
    ensures Frames(issued[..n + 1]) == Frames(issued[..n]) + [issued[n].frame]
  {
  }

  lemma AddressedSnoc(issued: seq<Request>, answers: seq<Frame>, m: Frame)
    requires |answers| < |issued|
    ensures Addressed(issued, answers + [m]) == Addressed(issued, answers) + [ToClient(issued[|answers|].fd, m)]
  {
  }

  lemma AnswerTracked(s: State, issued: seq<Request>, answers: seq<Frame>, sent: nat, m: Frame)
    requires Tracked(s, issued, answers, sent) && |answers| < sent && IsCtl(m) && s.queue != []
    ensures Tracked(AnswerHead(s, m), issued, answers + [m], sent)
  {
    hide CtlToModem, CtlToClients, Frames, Addressed, AnswerAll, PerConnection;
    var fd := s.queue[0].fd;
    AnswerAllFds(s.connections, fd, m);
    PerConnectionOnce(s.connections, fd, ToClient(fd, m));
    LogToClient(s.log, fd, m);
    AddressedSnoc(issued, answers, m);
  }

  lemma SendTracked(s: State, issued: seq<Request>, answers: seq<Frame>)
    requires Tracked(s, issued, answers, |answers|)
    ensures Serialised(SendHead(s), issued, answers)
  {
    hide CtlToModem, CtlToClients, Frames, Addressed, PerConnection;
    if s.queue != [] {
      var head := s.queue[0];
      assert head == issued[|answers|];
      PerConnectionOnce(s.connections, head.fd, ToModem(head.frame));
      LogToModem(s.log, head.frame);
      FramesSnoc(issued, |answers|);
    }
  }

  lemma ResponseStep(s: State, issued: seq<Request>, answers: seq<Frame>, m: Frame)
    requires Serialised(s, issued, answers) && IsCtlResponse(m) && s.queue != []
    ensures Serialised(FromModemStep(s, m), issued, answers + [m])
  {
    hide Tracked, AnswerHead, SendHead;
    AnswerTracked(s, issued, answers, |answers| + 1, m);
    SendTracked(AnswerHead(s, m), issued, answers + [m]);
  }

  lemma ServiceStep(s: State, issued: seq<Request>, answers: seq<Frame>, m: Frame)
    requires Serialised(s, issued, answers) && !IsCtl(m)
    ensures Serialised(FromModemStep(s, m), issued, answers)
  {
    hide CtlToModem, CtlToClients, Frames, Addressed, FanOut;
    FanOutIsService(s.connections, m);
    CtlConcat(s.log, FanOut(s.connections, m));
  }

  lemma MoreIssued(issued: seq<Request>, answers: seq<Frame>, sent: nat, more: seq<Request>)
    requires |answers| <= sent <= |issued| && issued <= more
    ensures Frames(more[..sent]) == Frames(issued[..sent])
    ensures Addressed(more, answers) == Addressed(issued, answers)
  {
    assert more[..sent] == issued[..sent];
  }

  lemma CtlRequestStep(s: State, issued: seq<Request>, answers: seq<Frame>, fd: nat, m: Frame)
    requires Serialised(s, issued, answers) && Connected(s.connections, fd) && IsCtl(m)
    ensures Serialised(FromClientStep(s, fd, m), issued + [Request(fd, m)], answers)
  {
    hide CtlToModem, CtlToClients, Frames, Addressed;
    LogToModem(s.log, m);
    assert s.log + [] == s.log;
    var more := issued + [Request(fd, m)];
    var sent := |answers| + if s.queue == [] then 0 else 1;
    MoreIssued(issued, answers, sent, more);
    assert FromClientStep(s, fd, m).queue == more[|answers|..];
    if s.queue == [] {
      assert sent == |issued| && more[sent].frame == m;
      FramesSnoc(more, sent);
    }
  }

  lemma RequestStep(s: State, issued: seq<Request>, answers: seq<Frame>, fd: nat, m: Frame)
    requires Serialised(s, issued, answers) && Connected(s.connections, fd)
    ensures Serialised(FromClientStep(s, fd, m), if IsCtl(m) then issued + [Request(fd, m)] else issued, answers)
  {
    if IsCtl(m) {
      hide Serialised, FromClientStep;
      CtlRequestStep(s, issued, answers, fd, m);
    } else {
      hide CtlToModem, CtlToClients, Frames, Addressed;
      LogToModem(s.log, m);
      assert s.log + [] == s.log;
    }
  }

  /** Removing by position shifts what follows. */
  lemma WithoutAt(cs: seq<Connection>, k: nat, j: nat)
    requires k <= |cs| && j < |Without(cs, k)|
    ensures (if j < k then j else j + 1) < |cs| && Without(cs, k)[j] == cs[if j < k then j else j + 1]
  {
  }

  lemma IndexOfFd(cs: seq<Connection>, fd: nat)
    ensures var k := IndexOf(ConnectionFds(cs), fd);
            && k <= |cs| && (k < |cs| ==> cs[k].fd == fd) && forall i :: 0 <= i < k ==> cs[i].fd != fd
  {
    assert forall i :: 0 <= i < |cs| ==> ConnectionFds(cs)[i] == cs[i].fd;
  }

  lemma WithoutIsDistinct(cs: seq<Connection>, k: nat)
    requires DistinctFds(cs) && k <= |cs|
    ensures DistinctFds(Without(cs, k))
  {
    hide Without;
    var after := Without(cs, k);
    forall i, j | 0 <= i < j < |after| ensures after[i].fd != after[j].fd {
      WithoutAt(cs, k, i);
      WithoutAt(cs, k, j);
    }
  }

  lemma WithoutConnection(cs: seq<Connection>, fd: nat, x: nat)
    requires DistinctFds(cs)
    ensures var after := Without(cs, IndexOf(ConnectionFds(cs), fd));
            DistinctFds(after) && (Connected(after, x) <==> Connected(cs, x) && x != fd)
  {
    var k := IndexOf(ConnectionFds(cs), fd);
    var after := Without(cs, k);
    IndexOfFd(cs, fd);
    hide IndexOf;
    WithoutIsDistinct(cs, k);
    if Connected(cs, x) && x != fd {
      var i :| 0 <= i < |cs| && cs[i].fd == x;
      assert after[if i < k then i else i - 1].fd == x;
    }
    if Connected(after, x) {
      var j :| 0 <= j < |after| && after[j].fd == x;
      WithoutAt(cs, k, j);
    }
  }

  lemma DisconnectKeeps(s: State, issued: seq<Request>, answers: seq<Frame>, fd: nat)
    requires Serialised(s, issued, answers) && fd !in RequestFds(s.queue)
    ensures Serialised(DisconnectStep(s, fd), issued, answers)
  {
    assert forall i :: 0 <= i < |s.queue| ==> RequestFds(s.queue)[i] == s.queue[i].fd;
    forall x {
      WithoutConnection(s.connections, fd, x);
    }
  }

  /** For any descriptor whose low byte is free, and for the -1 of a failed accept. */
  lemma AcceptKeeps(s: State, issued: seq<Request>, answers: seq<Frame>, clientfd: int)
    requires Serialised(s, issued, answers) && !Connected(s.connections, clientfd % 256)
    ensures Serialised(AcceptStep(s, clientfd), issued, answers)
  {
    var after := AcceptStep(s, clientfd).connections;
    forall x | Connected(s.connections, x)
      ensures Connected(after, x)
    {
      var i :| 0 <= i < |s.connections| && s.connections[i].fd == x;
      assert after[i].fd == x;
    }
  }

  lemma StepSerialised(s: State, issued: seq<Request>, answers: seq<Frame>, e: Event)
    requires Serialised(s, issued, answers) && LegalControl(s, |answers|, e)
    ensures Serialised(Step(s, e), issued + IssuedBy(e), answers + ResponsesIn(e))
  {
    hide Serialised, CtlToModem, AcceptStep, DisconnectStep, FromClientStep, FromModemStep;
    assert issued + [] == issued && answers + [] == answers;
    match e
    case Accept(clientfd) => AcceptKeeps(s, issued, answers, clientfd);
    case Disconnect(fd) => DisconnectKeeps(s, issued, answers, fd);
    case FromClient(fd, m) => RequestStep(s, issued, answers, fd, m);
    case FromModem(m) =>
      if IsCtl(m) {
        OutstandingIsHead(s, issued, answers);
        ResponseStep(s, issued, answers, m);
      } else {
        ServiceStep(s, issued, answers, m);
      }
  }

  lemma OutstandingIsHead(s: State, issued: seq<Request>, answers: seq<Frame>)
    requires Serialised(s, issued, answers)
    ensures |CtlToModem(s.log)| == |answers| + if s.queue == [] then 0 else 1
  {
  }

  /** In every run the queue holds the unanswered control requests in order of arrival; of
      these exactly the head has been sent, so at most one is outstanding; and the `k`-th
      answer has gone to the client of the `k`-th request, and to nobody else. */
  lemma {:induction false} ControlIsSerialised(es: seq<Event>)
    requires ControlRun(es)
    ensures Serialised(Run(es), Issued(es), Responses(es))
  {
    if es == [] {
    } else {
      hide Serialised, Step, LegalControl, IssuedBy, ResponsesIn;
      var before := es[..|es| - 1];
      ControlIsSerialised(before);
      StepSerialised(Run(before), Issued(before), Responses(before), es[|es| - 1]);
    }
  }

  // ---------------------------------------------------------------------------
  // Where serialisation ends
  // ---------------------------------------------------------------------------

  /** `outstanding` are the requests the modem has yet to answer: the head, or none. */
  predicate InStep(s: State, outstanding: seq<Request>) {
    && DistinctFds(s.connections)
    && (forall i :: 0 <= i < |s.queue| ==> Connected(s.connections, s.queue[i].fd))
    && outstanding == s.queue[..if s.queue == [] then 0 else 1]
  }

  /** Nothing of this client is queued, or a single message that is not the head. */
  predicate MayLeave(queue: seq<Request>, fd: nat) {
    var fds := RequestFds(queue);
    var k := IndexOf(fds, fd);
    k == |fds| || (k > 0 && fd !in fds[k + 1..])
  }

  /** A disconnection drops one queued message and writes nothing. It leaves the proxy in
      step exactly when the client had nothing queued, or one message behind the head. */
  lemma DisconnectInStep(s: State, outstanding: seq<Request>, fd: nat)
    requires InStep(s, outstanding) && Connected(s.connections, fd)
    ensures InStep(DisconnectStep(s, fd), outstanding) <==> MayLeave(s.queue, fd)
  {
    var fds := RequestFds(s.queue);
    var k := IndexOf(fds, fd);
    var after := DisconnectStep(s, fd);
    assert forall i :: 0 <= i < |fds| ==> fds[i] == s.queue[i].fd;
    forall x {
      WithoutConnection(s.connections, fd, x);
    }
    if k < |fds| && k > 0 && fd in fds[k + 1..] {
      var i :| k < i < |fds| && fds[i] == fd;
      assert after.queue[i - 1].fd == fd;
    }
  }

  /** When the client whose request is outstanding leaves, the answer to that request goes to
      the client next in the queue, whose own request was never sent. */
  lemma HeadOwnerLeaves(s: State, fd: nat, m: Frame)
    requires |s.queue| > 1 && InStep(s, s.queue[..1]) && s.queue[0].fd == fd != s.queue[1].fd && IsCtlResponse(m)
    ensures DisconnectStep(s, fd).log == s.log
    ensures s.log + [ToClient(s.queue[1].fd, m)] <= FromModemStep(DisconnectStep(s, fd), m).log
  {
    var after := DisconnectStep(s, fd);
    var next := s.queue[1].fd;
    assert RequestFds(s.queue)[0] == fd;
    assert Connected(s.connections, s.queue[0].fd) && Connected(s.connections, s.queue[1].fd);
    WithoutConnection(s.connections, fd, next);
    assert after.queue[0] == s.queue[1];
    PerConnectionOnce(after.connections, next, ToClient(next, m));
  }

  /** A control indication changes nothing but sends the head of the queue once more. */
  lemma IndicationResends(s: State, outstanding: seq<Request>, m: Frame)
    requires InStep(s, outstanding) && IsCtl(m) && !IsCtlResponse(m)
    ensures FromModemStep(s, m) == s.(log := s.log + if s.queue == [] then [] else [ToModem(s.queue[0].frame)])
  {
    if s.queue != [] {
      PerConnectionOnce(s.connections, s.queue[0].fd, ToModem(s.queue[0].frame));
    } else {
      assert s.log + [] == s.log;
    }
  }

  // ---------------------------------------------------------------------------
  // A leftover message at the head
  // ---------------------------------------------------------------------------

  function RunFrom(s: State, es: seq<Event>): State {
    if es == [] then s else Step(RunFrom(s, es[..|es| - 1]), es[|es| - 1])
  }

  /** The head of the queue belongs to nobody who is connected. */
  predicate Stuck(s: State) {
    s.queue != [] && !Connected(s.connections, s.queue[0].fd)
  }

  /** A client that leaves with two messages queued leaves the second one behind. */
  lemma LeftoverStays(s: State, fd: nat, i: nat)
    requires DistinctFds(s.connections) && Connected(s.connections, fd)
    requires IndexOf(RequestFds(s.queue), fd) < i < |s.queue| && s.queue[i].fd == fd
    ensures var after := DisconnectStep(s, fd);
            !Connected(after.connections, fd) && after.queue[i - 1] == s.queue[i]
  {
    WithoutConnection(s.connections, fd, fd);
  }

  /** When the message before it is answered, the leftover becomes the head, and it is not sent. */
  lemma LeftoverBecomesHead(s: State, m: Frame)
    requires |s.queue| > 1 && !Connected(s.connections, s.queue[1].fd) && IsCtlResponse(m)
    ensures var after := FromModemStep(s, m); Stuck(after) && CtlToModem(after.log) == CtlToModem(s.log)
  {
    var fd := s.queue[0].fd;
    var cs := AnswerAll(s.connections, fd, m);
    assert forall i :: 0 <= i < |cs| ==> cs[i].fd == s.connections[i].fd;
    NobodyListens(cs, s.queue[1].fd, ToModem(s.queue[1].frame));
    CopiesToClient(s.connections, fd, m);
    CtlConcat(s.log, PerConnection(s.connections, fd, ToClient(fd, m)));
    assert s.log + PerConnection(s.connections, fd, ToClient(fd, m)) + []
        == s.log + PerConnection(s.connections, fd, ToClient(fd, m));
  }

  lemma {:induction false} NobodyListens(cs: seq<Connection>, fd: nat, o: Output)
    requires !Connected(cs, fd)
    ensures PerConnection(cs, fd, o) == []
  {
    if cs != [] {
      var front := cs[..|cs| - 1];
      assert Connected(front, fd) ==> Connected(cs, fd);
      assert cs[|cs| - 1].fd != fd;
      NobodyListens(front, fd, o);
    }
  }

  lemma {:induction false} CopiesToClient(cs: seq<Connection>, fd: nat, m: Frame)
    ensures CtlToModem(PerConnection(cs, fd, ToClient(fd, m))) == []
  {
    if cs != [] {
      var front := cs[..|cs| - 1];
      CopiesToClient(front, fd, m);
      CtlConcat(PerConnection(front, fd, ToClient(fd, m)), if cs[|cs| - 1].fd == fd then [ToClient(fd, m)] else []);
      Singletons(ToClient(fd, m));
    }
  }

  /** What keeps a stuck queue stuck: no answer, and no new client with the old descriptor. */
  predicate NoRelief(fd: nat, es: seq<Event>) {
    forall i :: 0 <= i < |es| ==>
      match es[i]
      case Accept(clientfd) => clientfd % 256 != fd
      case FromModem(m) => !IsCtlResponse(m)
      case _ => true
  }

  /** From then on, until a stray answer comes, no control request of anybody reaches the
      modem, however many are queued and whoever leaves. */
  lemma {:induction false} StuckForGood(s: State, es: seq<Event>)
    requires Stuck(s) && DistinctFds(s.connections) && NoRelief(s.queue[0].fd, es)
    requires forall i :: 0 <= i < |es| && es[i].Accept? ==>
               !Connected(RunFrom(s, es[..i]).connections, es[i].clientfd % 256)
    ensures var t := RunFrom(s, es);
            && Stuck(t) && t.queue[0] == s.queue[0] && DistinctFds(t.connections)
            && CtlToModem(t.log) == CtlToModem(s.log)
  {
    if es != [] {
      hide Step, CtlToModem;
      var n := |es| - 1;
      assert forall i :: 0 <= i < n ==> es[..n][i] == es[i] && es[..n][..i] == es[..i];
      StuckForGood(s, es[..n]);
      assert es[n].Accept? ==> !Connected(RunFrom(s, es[..n]).connections, es[n].clientfd % 256);
      StuckStep(RunFrom(s, es[..n]), es[n]);
    }
  }

  lemma StuckStep(s: State, e: Event)
    requires Stuck(s) && DistinctFds(s.connections) && NoRelief(s.queue[0].fd, [e])
    requires e.Accept? ==> !Connected(s.connections, e.clientfd % 256)
    ensures var t := Step(s, e);
            && Stuck(t) && t.queue[0] == s.queue[0] && DistinctFds(t.connections)
            && CtlToModem(t.log) == CtlToModem(s.log)
  {
    assert [e][0] == e;
    assert s.log + [] == s.log;
    match e
    case Accept(clientfd) =>
    case Disconnect(fd) =>
      StuckThroughDisconnect(s, fd);
    case FromClient(fd, m) =>
      Singletons(ToModem(m));
      CtlConcat(s.log, [ToModem(m)]);
    case FromModem(m) =>
      if IsCtl(m) {
        NobodyListens(s.connections, s.queue[0].fd, ToModem(s.queue[0].frame));
      } else {
        FanOutIsService(s.connections, m);
        CtlConcat(s.log, FanOut(s.connections, m));
      }
  }

  lemma StuckThroughDisconnect(s: State, fd: nat)
    requires Stuck(s) && DistinctFds(s.connections)
    ensures var t := DisconnectStep(s, fd);
            Stuck(t) && t.queue[0] == s.queue[0] && DistinctFds(t.connections)
  {
    if Connected(s.connections, fd) {
      WithoutConnection(s.connections, fd, s.queue[0].fd);
      assert RequestFds(s.queue)[0] == s.queue[0].fd != fd;
    }
  }
}

/** The client-id registry that the connections' lists make up. */
module QmiRegistry {
  import opened QmiProxy
  import opened QmiProxyRuns

  /** Who holds which client id: grants add, releases and disconnections take away. A control
      response is the affair of the client at the head of the queue, if it is connected. */
  function Registry(es: seq<Event>): map<Client, nat> {
    if es == [] then map[]
    else
      var before := es[..|es| - 1];
      RegistryStep(Registry(before), Run(before), es[|es| - 1])
  }

  /** The proxy hands this response to client `fd`. */
  predicate HandedTo(s: State, m: Frame, fd: nat) {
    IsCtlResponse(m) && s.queue != [] && s.queue[0].fd == fd && Connected(s.connections, fd)
  }

  function AnswerStep(reg: map<Client, nat>, fd: nat, m: Frame): map<Client, nat> {
    if IsGrant(m) then reg[Key(m) := fd]
    else if IsRelease(m) && Key(m) in reg && reg[Key(m)] == fd then reg - {Key(m)}
    else reg
  }

  function RegistryStep(reg: map<Client, nat>, s: State, e: Event): map<Client, nat> {
    match e
    case Disconnect(fd) => map k | k in reg && reg[k] != fd :: reg[k]
    case FromModem(m) =>
      if s.queue != [] && HandedTo(s, m, s.queue[0].fd) then AnswerStep(reg, s.queue[0].fd, m) else reg
    case _ => reg
  }

  /** A new descriptor is not in use, and no id is granted that somebody holds. */
  predicate LegalStep(reg: map<Client, nat>, s: State, e: Event) {
    match e
    case Accept(clientfd) => !Connected(s.connections, clientfd % 256)
    case FromModem(m) => s.queue != [] && HandedTo(s, m, s.queue[0].fd) && IsGrant(m) ==> Key(m) !in reg
    case _ => true
  }

  /** Nothing else is asked of a run: control indications, stray responses and clients that
      leave with requests in the queue may all occur. */
  predicate RegistryRun(es: seq<Event>) {
    es != [] ==>
      var before := es[..|es| - 1];
      RegistryRun(before) && LegalStep(Registry(before), Run(before), es[|es| - 1])
  }

  predicate NoRepeats(clients: seq<Client>) {
    forall i, j :: 0 <= i < j < |clients| ==> clients[i] != clients[j]
  }

  ghost predicate Holds(c: Connection, reg: map<Client, nat>) {
    NoRepeats(c.clients) && forall k :: k in c.clients <==> k in reg && reg[k] == c.fd
  }

  /** Each connection lists exactly the ids it holds, each once; every id has a live holder. */
  ghost predicate Agrees(cs: seq<Connection>, reg: map<Client, nat>) {
    && (forall i :: 0 <= i < |cs| ==> Holds(cs[i], reg))
    && forall k :: k in reg ==> Connected(cs, reg[k])
  }

  lemma WithoutClient(clients: seq<Client>, k: Client, x: Client)
    requires NoRepeats(clients)
    ensures var after := Without(clients, IndexOf(clients, k));
            NoRepeats(after) && (x in after <==> x in clients && x != k)
  {
    var j := IndexOf(clients, k);
    var after := Without(clients, j);
    if x in clients && x != k {
      var i :| 0 <= i < |clients| && clients[i] == x;
      assert after[if i < j then i else i - 1] == x;
    }
  }

  lemma AnsweredHolds(c: Connection, reg: map<Client, nat>, fd: nat, m: Frame)
    requires Holds(c, reg) && (IsGrant(m) ==> Key(m) !in reg)
    ensures Holds(if c.fd == fd then Answered(c, m) else c, AnswerStep(reg, fd, m))
  {
    if c.fd == fd && IsRelease(m) && !IsGrant(m) {
      forall x {
        WithoutClient(c.clients, Key(m), x);
      }
    }
  }

  lemma AnswerAgrees(cs: seq<Connection>, reg: map<Client, nat>, fd: nat, m: Frame)
    requires Agrees(cs, reg) && Connected(cs, fd) && (IsGrant(m) ==> Key(m) !in reg)
    ensures Agrees(AnswerAll(cs, fd, m), AnswerStep(reg, fd, m))
  {
    hide Holds, Answered, Connected;
    AnswerAllFds(cs, fd, m);
    forall i | 0 <= i < |cs|
      ensures Holds(AnswerAll(cs, fd, m)[i], AnswerStep(reg, fd, m))
    {
      AnsweredHolds(cs[i], reg, fd, m);
    }
  }

  /** A response for a client that has left changes no connection. */
  lemma NobodyAnswered(cs: seq<Connection>, fd: nat, m: Frame)
    requires !Connected(cs, fd)
    ensures AnswerAll(cs, fd, m) == cs
  {
    assert forall i :: 0 <= i < |cs| ==> cs[i].fd != fd;
  }

  lemma HoldsOn(c: Connection, reg: map<Client, nat>, fd: nat)
    requires Holds(c, reg) && c.fd != fd
    ensures Holds(c, map k | k in reg && reg[k] != fd :: reg[k])
  {
  }

  lemma DisconnectAgrees(cs: seq<Connection>, reg: map<Client, nat>, fd: nat)
    requires Agrees(cs, reg) && DistinctFds(cs)
    ensures var after := Without(cs, IndexOf(ConnectionFds(cs), fd));
            && Agrees(if Connected(cs, fd) then after else cs, map k | k in reg && reg[k] != fd :: reg[k])
            && (Connected(cs, fd) ==> DistinctFds(after))
  {
    if !Connected(cs, fd) {
      assert (map k | k in reg && reg[k] != fd :: reg[k]) == reg;
      return;
    }
    var after := Without(cs, IndexOf(ConnectionFds(cs), fd));
    var reg' := map k | k in reg && reg[k] != fd :: reg[k];
    forall x {
      WithoutConnection(cs, fd, x);
    }
    hide Holds, DistinctFds;
    forall i | 0 <= i < |after|
      ensures Holds(after[i], reg')
    {
      assert Connected(after, after[i].fd);
      WithoutAt(cs, IndexOf(ConnectionFds(cs), fd), i);
      HoldsOn(after[i], reg, fd);
    }
  }

  lemma AcceptAgrees(cs: seq<Connection>, reg: map<Client, nat>, fd: nat)
    requires Agrees(cs, reg) && DistinctFds(cs) && !Connected(cs, fd)
    ensures Agrees(cs + [Connection(fd, [])], reg) && DistinctFds(cs + [Connection(fd, [])])
  {
    var after := cs + [Connection(fd, [])];
    forall x | Connected(cs, x)
      ensures Connected(after, x)
    {
      var i :| 0 <= i < |cs| && cs[i].fd == x;
      assert after[i].fd == x;
    }
  }

  lemma ConnectionsAfterResponse(s: State, m: Frame)
    requires IsCtlResponse(m) && s.queue != []
    ensures FromModemStep(s, m).connections == AnswerAll(s.connections, s.queue[0].fd, m)
  {
  }

  lemma ResponseAgrees(s: State, reg: map<Client, nat>, m: Frame)
    requires Agrees(s.connections, reg) && DistinctFds(s.connections) && LegalStep(reg, s, FromModem(m))
    ensures var after := FromModemStep(s, m).connections;
            Agrees(after, RegistryStep(reg, s, FromModem(m))) && DistinctFds(after)
  {
    hide Agrees, Connected, PerConnection, FanOut, AnswerAll;
    if IsCtlResponse(m) && s.queue != [] {
      var fd := s.queue[0].fd;
      ConnectionsAfterResponse(s, m);
      AnswerAllFds(s.connections, fd, m);
      if Connected(s.connections, fd) {
        AnswerAgrees(s.connections, reg, fd, m);
      } else {
        NobodyAnswered(s.connections, fd, m);
      }
    }
  }

  lemma StepAgrees(s: State, reg: map<Client, nat>, e: Event)
    requires Agrees(s.connections, reg) && DistinctFds(s.connections) && LegalStep(reg, s, e)
    ensures Agrees(Step(s, e).connections, RegistryStep(reg, s, e)) && DistinctFds(Step(s, e).connections)
  {
    hide Agrees, Connected, AnswerAll, PerConnection, FanOut;
    match e
    case Accept(clientfd) => AcceptAgrees(s.connections, reg, clientfd % 256);
    case Disconnect(fd) => DisconnectAgrees(s.connections, reg, fd);
    case FromClient(fd, m) =>
    case FromModem(m) => ResponseAgrees(s, reg, m);
  }

  /** In every run the lists of the connections are exactly the grants minus the releases,
      and therefore disjoint. */
  lemma {:induction false} RegistryIsExact(es: seq<Event>)
    requires RegistryRun(es)
    ensures Agrees(Run(es).connections, Registry(es)) && DistinctFds(Run(es).connections)
  {
    if es == [] {
    } else {
      hide Agrees, DistinctFds, Step, RegistryStep, LegalStep;
      var before := es[..|es| - 1];
      RegistryIsExact(before);
      StepAgrees(Run(before), Registry(before), es[|es| - 1]);
    }
  }

  // ---------------------------------------------------------------------------
  // Routing of service messages
  // ---------------------------------------------------------------------------

  lemma {:induction false} FanOutToHolder(fd: nat, clients: seq<Client>, m: Frame)
    requires NoRepeats(clients) && m.clientId != 0
    ensures FanOutTo(fd, clients, m) == if Client(m.qmiType, m.clientId) in clients then [ToClient(fd, m)] else []
  {
    if clients != [] {
      var rest, last := clients[..|clients| - 1], clients[|clients| - 1];
      FanOutToHolder(fd, rest, m);
      assert clients == rest + [last];
      assert last !in rest;
      assert Matches(last, m) <==> last == Client(m.qmiType, m.clientId);
    }
  }

  lemma LastIsApart(cs: seq<Connection>)
    requires cs != [] && DistinctFds(cs)
    ensures var rest, last := cs[..|cs| - 1], cs[|cs| - 1];
            && DistinctFds(rest) && !Connected(rest, last.fd)
            && forall fd :: Connected(cs, fd) <==> Connected(rest, fd) || last.fd == fd
  {
    assert cs[..|cs|] == cs;
    forall fd {
      ConnectedSnoc(cs, |cs| - 1, fd);
    }
  }

  lemma UnicastToOne(c: Connection, reg: map<Client, nat>, m: Frame)
    requires Holds(c, reg) && m.clientId != 0
    ensures var k := Client(m.qmiType, m.clientId);
            FanOutTo(c.fd, c.clients, m) == if k in reg && reg[k] == c.fd then [ToClient(c.fd, m)] else []
  {
    FanOutToHolder(c.fd, c.clients, m);
  }

  lemma {:induction false} FanOutUnicast(cs: seq<Connection>, reg: map<Client, nat>, m: Frame)
    requires DistinctFds(cs) && m.clientId != 0 && forall i :: 0 <= i < |cs| ==> Holds(cs[i], reg)
    ensures var k := Client(m.qmiType, m.clientId);
            FanOut(cs, m) == if k in reg && Connected(cs, reg[k]) then [ToClient(reg[k], m)] else []
  {
    hide Holds, DistinctFds, FanOutTo;
    if cs != [] {
      var rest, last := cs[..|cs| - 1], cs[|cs| - 1];
      LastIsApart(cs);
      hide Connected;
      FanOutUnicast(rest, reg, m);
      UnicastToOne(last, reg, m);
    }
  }

  /** In every run a service message addressed to one client id is handed to the holder of
      that id, once, and to nobody when nobody holds it. */
  lemma UnicastReachesHolder(es: seq<Event>, m: Frame)
    requires RegistryRun(es) && !IsCtl(m) && m.clientId != 0
    ensures var k, reg := Client(m.qmiType, m.clientId), Registry(es);
            FromModemStep(Run(es), m).log == Run(es).log + if k in reg then [ToClient(reg[k], m)] else []
  {
    hide Registry, Run, Holds;
    RegistryIsExact(es);
    FanOutUnicast(Run(es).connections, Registry(es), m);
  }

  // ---------------------------------------------------------------------------
  // While control requests are serialised
  // ---------------------------------------------------------------------------

  /** The client of the oldest unanswered request; any number when there is none. */
  function Requester(es: seq<Event>): nat {
    var n := |Responses(es)|;
    if n < |Issued(es)| then Issued(es)[n].fd else 0
  }

  /** The registry by who asked: a grant belongs to the client whose request it answers. */
  function Asked(es: seq<Event>): map<Client, nat> {
    if es == [] then map[]
    else
      var before, e := es[..|es| - 1], es[|es| - 1];
      match e
      case Disconnect(fd) => map k | k in Asked(before) && Asked(before)[k] != fd :: Asked(before)[k]
      case FromModem(m) => if IsCtl(m) then AnswerStep(Asked(before), Requester(before), m) else Asked(before)
      case _ => Asked(before)
  }

  /** In a control run the holder of an id is the client that asked for it. */
  lemma {:induction false} HolderIsWhoAsked(es: seq<Event>)
    requires ControlRun(es)
    ensures Registry(es) == Asked(es)
  {
    if es != [] {
      hide Connected, LegalControl;
      var before, e := es[..|es| - 1], es[|es| - 1];
      HolderIsWhoAsked(before);
      ControlIsSerialised(before);
      if e.FromModem? && IsCtl(e.frame) {
        HeadIsRequester(before, e.frame);
      }
    }
  }

  lemma HeadIsRequester(es: seq<Event>, m: Frame)
    requires Serialised(Run(es), Issued(es), Responses(es)) && IsCtl(m)
    requires LegalControl(Run(es), |Responses(es)|, FromModem(m))
    ensures Run(es).queue != [] && Run(es).queue[0].fd == Requester(es) && HandedTo(Run(es), m, Requester(es))
  {
    var s, issued, answers := Run(es), Issued(es), Responses(es);
    hide Run, Issued, Responses, CtlToModem, CtlToClients;
    OutstandingIsHead(s, issued, answers);
    assert s.queue[0] == issued[|answers|];
  }

  // ---------------------------------------------------------------------------
  // Where the registry ends
  // ---------------------------------------------------------------------------

  /** No client id is listed twice, by one connection or by two. */
  ghost predicate Exclusive(cs: seq<Connection>) {
    && (forall i :: 0 <= i < |cs| ==> NoRepeats(cs[i].clients))
    && forall i, j, k :: 0 <= i < j < |cs| && k in cs[i].clients ==> k !in cs[j].clients
  }

  /** A grant keeps the lists exclusive exactly when nobody holds the granted id. */
  lemma GrantKeepsExclusive(cs: seq<Connection>, fd: nat, m: Frame)
    requires Exclusive(cs) && DistinctFds(cs) && Connected(cs, fd) && IsGrant(m)
    ensures Exclusive(AnswerAll(cs, fd, m)) <==> forall i :: 0 <= i < |cs| ==> Key(m) !in cs[i].clients
  {
    var after := AnswerAll(cs, fd, m);
    var p :| 0 <= p < |cs| && cs[p].fd == fd;
    assert after[p].clients == cs[p].clients + [Key(m)];
    assert forall j :: 0 <= j < |cs| && j != p ==> after[j] == cs[j];
    if i :| 0 <= i < |cs| && Key(m) in cs[i].clients {
      assert Key(m) in after[p].clients && Key(m) in after[i].clients;
      if i == p {
        var q :| 0 <= q < |cs[p].clients| && cs[p].clients[q] == Key(m);
        assert after[p].clients[q] == after[p].clients[|cs[p].clients|];
      }
    }
  }
}
