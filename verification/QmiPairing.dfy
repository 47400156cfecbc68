/** Request/response pairing between the thread that sends QMI requests and the thread that
    reads the modem.

    The sender parks its request in `s_pRequest` and waits on a condition variable; the
    reader matches each message against it. The mutex is released only inside the wait, so
    a run interleaves whole sends, whole receives and whole wake-ups. A wake-up may come
    from the signal, from the time limit or for no reason. */
module QmiPairing {
  import opened Bytes
  import opened Options

  /** A QMI message with its header: as long as its length field says, and long enough for
      the fields that are looked at. */
  type Message = m: seq<byte> | |m| >= 11 && |m| == FromLe16(m[1..3]) + 1
    witness [1, 11, 0, 0, 0, 0, 0, 0, 0, 0, 0, 0]

  const QMUX_TYPE_CTL: byte := 0x00
  const QMUX_TYPE_WDS: byte := 0x01
  const QMUX_TYPE_NAS: byte := 0x03
  const QMUX_TYPE_WDS_ADMIN: byte := 0x1A
  const QMICTL_REVOKE_CLIENT_ID_IND := 0x0024
  const QMINAS_SERVING_SYSTEM_IND := 0x0024
  const QMIWDS_GET_PKT_SRVC_STATUS_IND := 0x0022
  const QMINAS_SYS_INFO_IND := 0x004D
  const QMI_WDA_SET_LOOPBACK_CONFIG_IND := 0x002F

  function QmiType(m: Message): byte { m[4] }

  function ClientId(m: Message): byte { m[5] }

  /** Control messages carry one byte of transaction id, the others two. */
  function TransactionId(m: Message): nat {
    if QmiType(m) == QMUX_TYPE_CTL then var tid: int := m[7]; tid else FromLe16(m[7..9])
  }

  /** `is_response` */
  predicate IsResponse(request: Message, m: Message) {
    QmiType(request) == QmiType(m) && ClientId(request) == ClientId(m) && TransactionId(request) == TransactionId(m)
  }

  /** The bytes that decide: type and client at 4 and 5, and the transaction id at 7, with its
      high byte at 8 except in control messages. */
  lemma IsResponseOnBytes(a: Message, b: Message)
    ensures IsResponse(a, b) <==> a[4] == b[4] && a[5] == b[5] && a[7] == b[7] && (a[4] != 0 ==> a[8] == b[8])
  {
  }

  /** A request lives in a buffer of its own; giving it back twice would be a fault. */
  datatype Request = Request(address: nat, msg: Message)

  /** What the reader tells the main thread about a message nobody waits for. */
  datatype Notice = ModemReset | NetworkStateChanged | DataCallListChanged | Loopback(m: Message)

  function NoticeOf(m: Message): Option<Notice> {
    if QmiType(m) == QMUX_TYPE_CTL && FromLe16(m[8..10]) == QMICTL_REVOKE_CLIENT_ID_IND then Some(ModemReset)
    else if QmiType(m) == QMUX_TYPE_NAS && FromLe16(m[9..11]) == QMINAS_SERVING_SYSTEM_IND then
      Some(NetworkStateChanged)
    else if QmiType(m) == QMUX_TYPE_WDS && FromLe16(m[9..11]) == QMIWDS_GET_PKT_SRVC_STATUS_IND then
      Some(DataCallListChanged)
    else if QmiType(m) == QMUX_TYPE_NAS && FromLe16(m[9..11]) == QMINAS_SYS_INFO_IND then Some(NetworkStateChanged)
    else if QmiType(m) == QMUX_TYPE_WDS_ADMIN && FromLe16(m[9..11]) == QMI_WDA_SET_LOOPBACK_CONFIG_IND then
      Some(Loopback(m))
    else None
  }

  /** The five messages that are told to the main thread: a revocation (control, 0x0024), the
      serving system or the system info (NAS, 0x0024 and 0x004D), the packet service status
      (WDS, 0x0022) and the loopback configuration (WDS administration, 0x002F). */
  lemma NoticeOnBytes(m: Message)
    ensures NoticeOf(m) == Some(ModemReset) <==> m[4] == 0x00 && m[8] == 0x24 && m[9] == 0x00
    ensures NoticeOf(m) == Some(NetworkStateChanged)
            <==> m[4] == 0x03 && (m[9] == 0x24 || m[9] == 0x4D) && m[10] == 0x00
    ensures NoticeOf(m) == Some(DataCallListChanged) <==> m[4] == 0x01 && m[9] == 0x22 && m[10] == 0x00
    ensures (NoticeOf(m).Some? && NoticeOf(m).value.Loopback?) <==> m[4] == 0x1A && m[9] == 0x2F && m[10] == 0x00
    ensures NoticeOf(m).Some? && NoticeOf(m).value.Loopback? ==> NoticeOf(m).value.m == m
  {
  }

  // ---------------------------------------------------------------------------
  // Steps
  // ---------------------------------------------------------------------------

  /** `waiting`: the sender is inside the condition wait. The last three fields record what
      has happened: the buffers given back, the pending ones that a later request replaced,
      and what the main thread was told. */
  datatype State = State(request: Option<Request>, response: Option<Message>, waiting: bool,
                         freed: seq<nat>, replaced: seq<nat>, notices: seq<Notice>)

  const INITIAL := State(None, None, false, [], [], [])

  datatype Action =
    | Send(request: Request, sent: bool)                 // up to the wait; `sent`: qmidev_send gave 0
    | Incoming(m: Option<Message>, room: bool)           // None cancels; `room`: malloc succeeded
    | Wake(signalled: bool, wanted: bool)                // `wanted`: the caller gave a place for the answer

  function AsSeq<T>(o: Option<T>): seq<T> {
    if o.Some? then [o.value] else []
  }

  function Addresses(r: Option<Request>): seq<nat> {
    if r.Some? then [r.value.address] else []
  }

  /** Whether this action ends the wait for `r`: a cancellation, or an answer to it. */
  predicate Settles(r: Request, a: Action) {
    a.Incoming? && (a.m.None? || IsResponse(r.msg, a.m.value))
  }

  /** The copy that the reader leaves for the sender. */
  function Copied(a: Action): Option<Message>
    requires a.Incoming?
  {
    if a.room then a.m else None
  }

  function Step(s: State, a: Action): State {
    match a
    case Send(r, sent) =>
      s.(request := Some(r), response := None, waiting := sent, replaced := s.replaced + Addresses(s.request))
    case Incoming(m, _) =>
      if s.request.Some? && Settles(s.request.value, a) then
        s.(request := None, response := Copied(a), freed := s.freed + Addresses(s.request))
      else if m.Some? then s.(notices := s.notices + AsSeq(NoticeOf(m.value)))
      else s
    case Wake(signalled, wanted) =>
      s.(waiting := false, response := if signalled && !wanted then None else s.response)
  }

  /** What the caller of a send gets, when the wait ends in state `s`. */
  function Answer(s: State, signalled: bool, wanted: bool): Option<Message> {
    if signalled && wanted then s.response else None
  }

  function Run(s: State, actions: seq<Action>): State {
    if actions == [] then s else Step(Run(s, actions[..|actions| - 1]), actions[|actions| - 1])
  }

  /** One sender: it starts a call only after the last one has returned, in a new buffer. */
  predicate Legal(before: seq<Action>, a: Action) {
    match a
    case Send(r, _) => !Run(INITIAL, before).waiting && r.address !in Sent(before)
    case Incoming(_, _) => true
    case Wake(_, _) => Run(INITIAL, before).waiting
  }

  predicate LegalRun(actions: seq<Action>) {
    actions != [] ==>
      var before := actions[..|actions| - 1];
      LegalRun(before) && Legal(before, actions[|actions| - 1])
  }

  /** The buffers handed to a send, in order. */
  function Sent(actions: seq<Action>): seq<nat> {
    if actions == [] then []
    else Sent(actions[..|actions| - 1]) + SentBy(actions[|actions| - 1])
  }

  function SentBy(a: Action): seq<nat> {
    if a.Send? then [a.request.address] else []
  }

  // ---------------------------------------------------------------------------
  // Pairing
  // ---------------------------------------------------------------------------

  /** Where the wait for `r` is settled; the length when it is not. */
  function Settling(r: Request, mid: seq<Action>): (k: nat)
    ensures k <= |mid|
    ensures k < |mid| ==> Settles(r, mid[k])
    ensures forall j :: 0 <= j < k ==> !Settles(r, mid[j])
  {
    if mid == [] then 0
    else
      var k := Settling(r, mid[..|mid| - 1]);
      if k < |mid| - 1 || Settles(r, mid[|mid| - 1]) then k else |mid|
  }

  /** The notices of all messages but the one that settles the wait. */
  function Others(r: Request, mid: seq<Action>): seq<Notice> {
    if mid == [] then []
    else
      var a := mid[|mid| - 1];
      Others(r, mid[..|mid| - 1])
      + if a.Incoming? && a.m.Some? && Settling(r, mid) != |mid| - 1 then AsSeq(NoticeOf(a.m.value)) else []
  }

  /** The state that the messages `mid` lead to after `r` has been sent in state `s`: the
      first one that settles it has fixed the response and given the request back, once. */
  function Awaited(s: State, r: Request, sent: bool, mid: seq<Action>): State
    requires forall a :: a in mid ==> a.Incoming?
  {
    var k := Settling(r, mid);
    if k < |mid| then
      assert mid[k] in mid;
      State(None, Copied(mid[k]), sent, s.freed + [r.address], s.replaced + Addresses(s.request),
            s.notices + Others(r, mid))
    else
      State(Some(r), None, sent, s.freed, s.replaced + Addresses(s.request), s.notices + Others(r, mid))
  }

  lemma AwaitedStep(s: State, r: Request, sent: bool, mid: seq<Action>)
    requires mid != [] && forall a :: a in mid ==> a.Incoming?
    ensures Awaited(s, r, sent, mid) == Step(Awaited(s, r, sent, mid[..|mid| - 1]), mid[|mid| - 1])
  {
    var n := |mid| - 1;
    var k0, k := Settling(r, mid[..n]), Settling(r, mid);
    SettlingStep(r, mid);
    OthersStep(r, mid);
    assert mid[n] in mid && (k < n ==> mid[..n][k] == mid[k]);
    hide NoticeOf, IsResponse, Settling, Others, AsSeq;
  }

  lemma SettlingStep(r: Request, mid: seq<Action>)
    requires mid != []
    ensures var n, k := |mid| - 1, Settling(r, mid[..|mid| - 1]);
            Settling(r, mid) == if k < n then k else if Settles(r, mid[n]) then n else |mid|
  {
    hide Settles;
  }

  lemma OthersStep(r: Request, mid: seq<Action>)
    requires mid != []
    ensures var n := |mid| - 1;
            Others(r, mid)
            == Others(r, mid[..n])
               + if mid[n].Incoming? && mid[n].m.Some? && Settling(r, mid) != n then
                   AsSeq(NoticeOf(mid[n].m.value))
                 else []
  {
    hide Settles, Settling, NoticeOf;
  }

  /** From any state whatever, and for any messages during the wait. */
  lemma {:induction false} SendThenReceive(s: State, r: Request, sent: bool, mid: seq<Action>)
    requires forall a :: a in mid ==> a.Incoming?
    ensures Run(Step(s, Send(r, sent)), mid) == Awaited(s, r, sent, mid)
  {
    if mid != [] {
      hide Step;
      SendThenReceive(s, r, sent, mid[..|mid| - 1]);
      AwaitedStep(s, r, sent, mid);
    }
  }

  lemma {:induction false} RunSplits(s: State, first: seq<Action>, second: seq<Action>)
    ensures Run(s, first + second) == Run(Run(s, first), second)
  {
    hide Step;
    if second == [] {
      assert first + second == first;
    } else {
      var n := |second| - 1;
      RunSplits(s, first, second[..n]);
      assert (first + second)[..|first| + n] == first + second[..n];
    }
  }

  /** A message agrees with a request in type, client and transaction id, byte for byte. */
  predicate Agree(request: seq<byte>, m: seq<byte>) {
    && |request| >= 9 && |m| >= 9
    && m[4] == request[4] && m[5] == request[5] && m[7] == request[7]
    && (request[4] == 0x00 || m[8] == request[8])
  }

  lemma SettlesOnBytes(r: Request, a: Action)
    requires a.Incoming?
    ensures Settles(r, a) <==> a.m.None? || Agree(r.msg, a.m.value)
  {
    if a.m.Some? {
      IsResponseOnBytes(r.msg, a.m.value);
    }
  }

  /** Pairing over any run: the answer with which a call returns is the first message since
      that very call began that agrees with its request in type, client and transaction id,
      and a call that was signalled and wants it does return it; there is none if a
      cancellation came first or no room was left for a copy. */
  lemma AnswerBelongsToCall(actions: seq<Action>, i: nat, j: nat)
    requires i < j < |actions| && actions[i].Send? && actions[j].Wake?
    requires forall k :: i < k < j ==> actions[k].Incoming?
    ensures var r := actions[i].request;
            var mid := actions[i + 1..j];
            var k := Settling(r, mid);
            var answer := Answer(Run(INITIAL, actions[..j]), actions[j].signalled, actions[j].wanted);
            && (actions[j].signalled && actions[j].wanted && k < |mid| ==> answer == Copied(mid[k]))
            && (answer.Some? ==> k < |mid| && mid[k].m == answer && Agree(r.msg, answer.value))
            && (k < |mid| ==> mid[k].Incoming? && (mid[k].m.None? || Agree(r.msg, mid[k].m.value)))
            && (forall n :: 0 <= n < k ==>
                  mid[n].Incoming? && mid[n].m.Some? && !Agree(r.msg, mid[n].m.value))
  {
    forall a: Action | a.Incoming? ensures Settles(actions[i].request, a)
                                           <==> a.m.None? || Agree(actions[i].request.msg, a.m.value) {
      SettlesOnBytes(actions[i].request, a);
    }
    var r := actions[i].request;
    var mid := actions[i + 1..j];
    assert actions[..j] == actions[..i] + ([actions[i]] + mid);
    RunSplits(INITIAL, actions[..i], [actions[i]] + mid);
    RunSplits(Run(INITIAL, actions[..i]), [actions[i]], mid);
    assert Run(Run(INITIAL, actions[..i]), [actions[i]]) == Step(Run(INITIAL, actions[..i]), actions[i]) by {
      assert [actions[i]][..0] == [];
    }
    SendThenReceive(Run(INITIAL, actions[..i]), r, actions[i].sent, mid);
  }

  // ---------------------------------------------------------------------------
  // Buffers
  // ---------------------------------------------------------------------------

  ghost predicate NoRepeat(xs: seq<nat>) {
    forall i, j :: 0 <= i < j < |xs| ==> xs[i] != xs[j]
  }

  function Held(s: State): multiset<nat> {
    multiset(s.freed) + multiset(s.replaced) + multiset(Addresses(s.request))
  }

  lemma StepConserves(s: State, a: Action)
    ensures Held(Step(s, a)) == Held(s) + multiset(SentBy(a))
  {
    hide NoticeOf, IsResponse, AsSeq;
    if a.Incoming? && s.request.Some? && Settles(s.request.value, a) {
      assert multiset(s.freed + Addresses(s.request)) == multiset(s.freed) + multiset(Addresses(s.request));
    } else if a.Send? {
      assert multiset(s.replaced + Addresses(s.request)) == multiset(s.replaced) + multiset(Addresses(s.request));
    }
  }

  /** Every buffer ever sent is in exactly one of three places. */
  lemma {:induction false} BuffersConserved(actions: seq<Action>)
    ensures var s := Run(INITIAL, actions);
            multiset(Sent(actions)) == multiset(s.freed) + multiset(s.replaced) + multiset(Addresses(s.request))
  {
    hide Step, SentBy;
    if actions != [] {
      var before := actions[..|actions| - 1];
      BuffersConserved(before);
      StepConserves(Run(INITIAL, before), actions[|actions| - 1]);
      assert multiset(Sent(actions)) == multiset(Sent(before)) + multiset(SentBy(actions[|actions| - 1]));
    }
  }

  lemma {:induction false} SentOnce(actions: seq<Action>)
    requires LegalRun(actions)
    ensures NoRepeat(Sent(actions))
  {
    if actions != [] {
      SentOnce(actions[..|actions| - 1]);
    }
  }

  lemma {:induction false} NoRepeatIsOnce(xs: seq<nat>, x: nat)
    requires NoRepeat(xs)
    ensures multiset(xs)[x] <= 1
  {
    if xs != [] {
      var front := xs[..|xs| - 1];
      NoRepeatIsOnce(front, x);
      assert xs == front + [xs[|xs| - 1]];
      assert x in multiset(front) ==> x in front;
    }
  }

  /** No request is given back twice, in any run; and one that is pending, or was replaced
      while pending, has not been given back at all. */
  lemma FreedOnce(actions: seq<Action>, address: nat)
    requires LegalRun(actions)
    ensures var s := Run(INITIAL, actions);
            && multiset(s.freed)[address] <= 1
            && (address in s.replaced || address in Addresses(s.request) ==> address !in s.freed)
  {
    var s := Run(INITIAL, actions);
    BuffersConserved(actions);
    SentOnce(actions);
    NoRepeatIsOnce(Sent(actions), address);
    assert address in s.freed ==> multiset(s.freed)[address] > 0;
    assert address in s.replaced ==> multiset(s.replaced)[address] > 0;
    assert address in Addresses(s.request) ==> multiset(Addresses(s.request))[address] > 0;
  }

  /** When a request is lost: exactly when nothing settles it before the next one is sent,
      whether or not its own call has returned in between. */
  lemma {:induction false} RequestLostIff(s: State, r: Request, sent: bool, mid: seq<Action>, next: Request,
                                          sentNext: bool)
    requires forall a :: a in mid ==> !a.Send?
    ensures var t := Run(Step(s, Send(r, sent)), mid);
            && t.request == (if Settling(r, mid) < |mid| then None else Some(r))
            && t.replaced == s.replaced + Addresses(s.request)
            && Step(t, Send(next, sentNext)).replaced
               == t.replaced + (if Settling(r, mid) < |mid| then [] else [r.address])
  {
    if mid != [] {
      var n := |mid| - 1;
      assert mid[n] in mid;
      RequestLostIff(s, r, sent, mid[..n], next, sentNext);
    }
  }

  // ---------------------------------------------------------------------------
  // The two threads
  // ---------------------------------------------------------------------------

  const EINVAL := 22

  class Exchange {
    var request: Option<Request>    // s_pRequest
    var response: Option<Message>   // s_pResponse
    var notices: seq<Notice>
    ghost var waiting: bool
    ghost var freed: seq<nat>
    ghost var replaced: seq<nat>

    ghost function Value(): State
      reads this
    {
      State(request, response, waiting, freed, replaced, notices)
    }

    constructor ()
      ensures Value() == INITIAL
    {
      request, response, notices := None, None, [];
      waiting, freed, replaced := false, [], [];
    }

    /** The sender up to the condition wait; `sendResult` is what `qmidev_send` returns. */
    method Begin(r: Request, sendResult: int)
      modifies this
      ensures Value() == Step(old(Value()), Send(r, sendResult == 0))
    {
      replaced := replaced + Addresses(request);
      request := Some(r);
      response := None;
      waiting := sendResult == 0;
    }

    /** `QmiThreadRecvQMI` */
    method Recv(m: Option<Message>, room: bool)
      modifies this
      ensures Value() == Step(old(Value()), Incoming(m, room))
    {
      if m.None? {
        if request.Some? {
          freed := freed + [request.value.address];
          request := None;
          response := None;
        }
        return;
      }
      if request.Some? && IsResponse(request.value.msg, m.value) {
        freed := freed + [request.value.address];
        request := None;
        response := if room then Some(m.value[..FromLe16(m.value[1..3]) + 1]) else None;
        assert m.value[..FromLe16(m.value[1..3]) + 1] == m.value;
      } else {
        var notice := NoticeOf(m.value);
        if notice.Some? {
          notices := notices + [notice.value];
        }
      }
    }

    /** The sender after the condition wait, which returned `waitResult`. */
    method End(wanted: bool, waitResult: int) returns (answer: Option<Message>)
      modifies this
      ensures Value() == Step(old(Value()), Wake(waitResult == 0, wanted))
      ensures answer == Answer(old(Value()), waitResult == 0, wanted)
    {
      answer := None;
      waiting := false;
      if waitResult == 0 {
        if response.Some? && wanted {
          answer := response;
        } else if response.Some? {
          response := None;
        }
      }
    }

    /** `QmiThreadSendQMITimeout`, with all that the reader does during the wait: whatever
        the state before, the call returns the first answer to its own request. */
    method SendQmiTimeout(r: Option<Request>, wanted: bool, sendResult: int,
                          incoming: seq<Action>, waitResult: int)
      returns (ret: int, answer: Option<Message>)
      requires forall a :: a in incoming ==> a.Incoming?
      modifies this
      ensures r.None? ==> ret == -EINVAL && answer == None && Value() == old(Value())
      ensures r.Some? && sendResult != 0 ==>
                ret == sendResult && answer == None && Value() == Step(old(Value()), Send(r.value, false))
      ensures r.Some? && sendResult == 0 ==>
                var k := Settling(r.value, incoming);
                && ret == waitResult
                && answer == (if waitResult == 0 && wanted && k < |incoming| then Copied(incoming[k]) else None)
                && request == (if k < |incoming| then None else r)
                && freed == old(freed) + (if k < |incoming| then [r.value.address] else [])
                && notices == old(notices) + Others(r.value, incoming)
    {
      if r.None? {
        return -EINVAL, None;
      }
      answer := None;
      ret := sendResult;
      ghost var s := Value();
      Begin(r.value, sendResult);
      if ret == 0 {
        for i := 0 to |incoming|
          invariant Value() == Run(Step(s, Send(r.value, true)), incoming[..i])
        {
          assert incoming[i] in incoming;
          Recv(incoming[i].m, incoming[i].room);
          assert incoming[..i + 1][..i] == incoming[..i];
        }
        assert incoming[..|incoming|] == incoming;
        SendThenReceive(s, r.value, true, incoming);
        ret := waitResult;
        answer := End(wanted, waitResult);
      }
    }
  }
}
