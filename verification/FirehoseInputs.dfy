/** What a run takes in from outside: the device's replies and the fate of the writes. They
    determine the run, and every run that is possible by its log comes from some of them. */
module FirehoseInputs {
  import opened FirehoseCommands
  import opened FirehoseProtocol
  import opened Sequences

  /** When the replies are used up every receive fails, and when the writes are, every write. */
  datatype Inputs = Inputs(replies: seq<Reply>, writes: seq<bool>)

  function Rest<T>(s: seq<T>): seq<T> { if s == [] then [] else s[1..] }

  function NextReply(i: Inputs): Reply { if i.replies == [] then Failure else i.replies[0] }

  function NextWrite(i: Inputs): bool { i.writes != [] && i.writes[0] }

  /** The event is what these inputs bring next. */
  predicate Offers(i: Inputs, e: Event) {
    match e
    case Sent(_) => true
    case Got(r) => r == NextReply(i)
    case Chunk(_, ok) => ok == NextWrite(i)
  }

  function After(i: Inputs, e: Event): Inputs {
    match e
    case Sent(_) => i
    case Got(_) => i.(replies := Rest(i.replies))
    case Chunk(_, _) => i.(writes := Rest(i.writes))
  }

  function AfterAll(i: Inputs, events: seq<Event>): Inputs {
    if events == [] then i else After(AfterAll(i, events[..|events| - 1]), events[|events| - 1])
  }

  predicate OffersAll(i: Inputs, events: seq<Event>) {
    events != [] ==>
      var before := events[..|events| - 1];
      OffersAll(i, before) && Offers(AfterAll(i, before), events[|events| - 1])
  }

  lemma OffersSnoc(i: Inputs, events: seq<Event>, e: Event)
    ensures AfterAll(i, events + [e]) == After(AfterAll(i, events), e)
    ensures OffersAll(i, events + [e]) <==> OffersAll(i, events) && Offers(AfterAll(i, events), e)
  {
    hide After, Offers;
    assert (events + [e])[..|events|] == events;
  }

  lemma {:induction false} OffersConcat(i: Inputs, a: seq<Event>, b: seq<Event>)
    ensures AfterAll(i, a + b) == AfterAll(AfterAll(i, a), b)
    ensures OffersAll(i, a + b) <==> OffersAll(i, a) && OffersAll(AfterAll(i, a), b)
  {
    hide Offers, After;
    if b == [] {
      assert a + b == a;
    } else {
      OffersConcat(i, a, b[..|b| - 1]);
      assert (a + b)[..|a + b| - 1] == a + b[..|b| - 1];
    }
  }

  lemma {:induction false} OffersPrefix(i: Inputs, events: seq<Event>, n: nat)
    requires OffersAll(i, events) && n < |events|
    ensures OffersAll(i, events[..n]) && Offers(AfterAll(i, events[..n]), events[n])
  {
    hide Offers, After;
    var last := |events| - 1;
    if n < last {
      OffersPrefix(i, events[..last], n);
      assert events[..last][..n] == events[..n];
    }
  }

  // ---------------------------------------------------------------------------
  // Inputs for given events
  // ---------------------------------------------------------------------------

  function Replies(events: seq<Event>): seq<Reply> {
    if events == [] then []
    else Replies(events[..|events| - 1]) + if events[|events| - 1].Got? then [events[|events| - 1].reply] else []
  }

  function Writes(events: seq<Event>): seq<bool> {
    if events == [] then []
    else Writes(events[..|events| - 1]) + if events[|events| - 1].Chunk? then [events[|events| - 1].ok] else []
  }

  /** Whatever is to come after them. */
  lemma {:induction false} InputsFor(events: seq<Event>, next: Inputs)
    ensures var i := Inputs(Replies(events) + next.replies, Writes(events) + next.writes);
            OffersAll(i, events) && AfterAll(i, events) == next
  {
    if events == [] {
      assert [] + next.replies == next.replies && [] + next.writes == next.writes;
    } else {
      var before, e := events[..|events| - 1], events[|events| - 1];
      var rs := if e.Got? then [e.reply] else [];
      var ws := if e.Chunk? then [e.ok] else [];
      Assoc(Replies(before), rs, next.replies);
      Assoc(Writes(before), ws, next.writes);
      InputsFor(before, Inputs(rs + next.replies, ws + next.writes));
    }
  }

  // ---------------------------------------------------------------------------
  // The inputs determine the events
  // ---------------------------------------------------------------------------

  /** Two events of the same kind that the same inputs bring are the same. */
  predicate Alike(a: Event, b: Event) {
    match a
    case Sent(c) => b == a
    case Got(_) => b.Got?
    case Chunk(data, _) => b.Chunk? && b.data == data
  }

  lemma {:induction false} SameSoFar(i: Inputs, a: seq<Event>, b: seq<Event>, n: nat)
    requires OffersAll(i, a) && OffersAll(i, b) && n <= |a| && n <= |b|
    requires forall k :: 0 <= k < n ==> Alike(a[k], b[k])
    ensures a[..n] == b[..n]
  {
    if n > 0 {
      SameSoFar(i, a, b, n - 1);
      OffersPrefix(i, a, n - 1);
      OffersPrefix(i, b, n - 1);
      assert a[..n] == a[..n - 1] + [a[n - 1]] && b[..n] == b[..n - 1] + [b[n - 1]];
    }
  }

  /** What runs up to the first reply of a kind is determined. */
  lemma SameWait(i: Inputs, a: seq<Event>, b: seq<Event>)
    requires OffersAll(i, a) && OffersAll(i, b) && IsWait(a) && IsWait(b)
    ensures a == b
  {
    var n := if |a| <= |b| then |a| else |b|;
    SameSoFar(i, a, b, n);
    assert a[..n][n - 1] == b[..n][n - 1];
  }

  lemma SameDrain(i: Inputs, a: seq<Event>, b: seq<Event>)
    requires OffersAll(i, a) && OffersAll(i, b) && IsDrain(a) && IsDrain(b)
    ensures a == b
  {
    var n := if |a| <= |b| then |a| else |b|;
    SameSoFar(i, a, b, n);
    assert a[..n][n - 1] == b[..n][n - 1];
  }

  lemma SameGreeting(i: Inputs, a: seq<Event>, b: seq<Event>)
    requires OffersAll(i, a) && OffersAll(i, b) && IsGreeting(a) && IsGreeting(b)
    ensures a == b
  {
    hide OffersAll, AfterAll, IsDrain;
    assert a == a[..1] + a[1..] && b == b[..1] + b[1..];
    OffersConcat(i, a[..1], a[1..]);
    OffersConcat(i, b[..1], b[1..]);
    SameSoFar(i, a[..1], b[..1], 1);
    assert a[..1][..1] == a[..1] && b[..1][..1] == b[..1];
    SameDrain(AfterAll(i, a[..1]), a[1..], b[1..]);
  }

  predicate IsImage(u: Setup, p: ProgramCmd, image: seq<Event>)
    requires u.payload > 0 && p.sectorSize > 0
  {
    ImageDone(u, p, image) || ImageBroken(u, p, image)
  }

  /** The chunks of an image are those of the file, whole but for a last one that is not. */
  lemma ImageShape(u: Setup, p: ProgramCmd, image: seq<Event>)
    requires u.payload > 0 && p.sectorSize > 0 && IsImage(u, p, image) && FileOf(u.files, p).Some?
    ensures var chunks := ImageChunks(u, p);
            && |image| <= |chunks|
            && (forall k :: 0 <= k < |image| ==> image[k].Chunk? && image[k].data == chunks[k])
            && (forall k :: 0 <= k < |image| - 1 ==> image[k].ok)
            && (|image| < |chunks| ==> image != [] && !image[|image| - 1].ok)
  {
    hide ImageChunks;
  }

  lemma SameImage(i: Inputs, u: Setup, p: ProgramCmd, a: seq<Event>, b: seq<Event>)
    requires u.payload > 0 && p.sectorSize > 0 && IsImage(u, p, a) && IsImage(u, p, b)
    requires OffersAll(i, a) && OffersAll(i, b)
    ensures a == b
  {
    if FileOf(u.files, p).Some? {
      ImageShape(u, p, a);
      ImageShape(u, p, b);
      hide ImageDone, ImageBroken, ImageChunks;
      var n := if |a| <= |b| then |a| else |b|;
      SameSoFar(i, a, b, n);
      assert n > 0 ==> a[..n][n - 1] == b[..n][n - 1];
    }
  }

  // ---------------------------------------------------------------------------
  // Exchanges
  // ---------------------------------------------------------------------------

  lemma OffersStep(i: Inputs, s: Step)
    requires OffersAll(i, Events(s))
    ensures OffersAll(i, s.first) && OffersAll(AfterAll(i, s.first), s.image)
    ensures OffersAll(AfterAll(AfterAll(i, s.first), s.image), s.second)
  {
    var sent := [Sent(s.cmd)];
    assert OffersAll(i, sent) && AfterAll(i, sent) == i by {
      assert sent[..0] == [];
    }
    hide OffersAll, AfterAll;
    OffersConcat(i, sent + s.first + s.image, s.second);
    OffersConcat(i, sent + s.first, s.image);
    OffersConcat(i, sent, s.first);
  }

  lemma SameStep(i: Inputs, u: Setup, a: Step, b: Step)
    requires a.cmd == b.cmd && Exchanged(u, a) && Exchanged(u, b)
    requires OffersAll(i, Events(a)) && OffersAll(i, Events(b))
    ensures a == b
  {
    hide OffersAll, AfterAll, ImageDone, ImageBroken, Events;
    OffersStep(i, a);
    OffersStep(i, b);
    SameWait(i, a.first, b.first);
    if a.cmd.Program? && RawOn(a.first) {
      var after := AfterAll(i, a.first);
      SameImage(after, u, a.cmd.program, a.image, b.image);
      if ImageBroken(u, a.cmd.program, a.image) {
        ImageNotDone(u, a.cmd.program, a.image);
      } else {
        SameWait(AfterAll(after, a.image), a.second, b.second);
      }
    }
  }

  lemma {:induction false} SameSteps(i: Inputs, u: Setup, a: seq<Step>, b: seq<Step>, n: nat)
    requires OffersAll(i, Flatten(a)) && OffersAll(i, Flatten(b)) && n <= |a| && n <= |b|
    requires forall k :: 0 <= k < |a| ==> Exchanged(u, a[k])
    requires forall k :: 0 <= k < |b| ==> Exchanged(u, b[k])
    requires forall k :: 0 <= k < n ==> a[k].cmd == b[k].cmd
    ensures a[..n] == b[..n]
  {
    hide OffersAll, AfterAll, Exchanged, Flatten, Events;
    if n > 0 {
      SameSteps(i, u, a, b, n - 1);
      OffersOneStep(i, a, n - 1);
      OffersOneStep(i, b, n - 1);
      SameStep(AfterAll(i, Flatten(a[..n - 1])), u, a[n - 1], b[n - 1]);
      assert a[..n] == a[..n - 1] + [a[n - 1]] && b[..n] == b[..n - 1] + [b[n - 1]];
    }
  }

  lemma OffersOneStep(i: Inputs, steps: seq<Step>, n: nat)
    requires OffersAll(i, Flatten(steps)) && n < |steps|
    ensures OffersAll(AfterAll(i, Flatten(steps[..n])), Events(steps[n]))
  {
    hide OffersAll, AfterAll, Events, Flatten;
    assert steps == steps[..n + 1] + steps[n + 1..] && steps[..n + 1] == steps[..n] + [steps[n]];
    FlattenConcat(steps[..n + 1], steps[n + 1..]);
    FlattenSnoc(steps[..n], steps[n]);
    OffersConcat(i, Flatten(steps[..n + 1]), Flatten(steps[n + 1..]));
    OffersConcat(i, Flatten(steps[..n]), Events(steps[n]));
  }

  lemma SameFollowed(i: Inputs, u: Setup, plan: seq<Command>, a: seq<Step>, b: seq<Step>)
    requires Follows(u, plan, a) && Follows(u, plan, b) && OffersAll(i, Flatten(a)) && OffersAll(i, Flatten(b))
    ensures a == b
  {
    hide OffersAll, Exchanged, Completed, Flatten;
    var n := if |a| <= |b| then |a| else |b|;
    SameSteps(i, u, a, b, n);
    assert n > 0 ==> a[..n][n - 1] == b[..n][n - 1];
  }

  lemma SameAttempted(i: Inputs, u: Setup, plan: seq<Command>, a: seq<Step>, b: seq<Step>)
    requires Attempted(u, plan, a) && Attempted(u, plan, b) && OffersAll(i, Flatten(a)) && OffersAll(i, Flatten(b))
    ensures a == b
  {
    hide OffersAll, Exchanged, Flatten;
    SameSteps(i, u, a, b, |a|);
    assert a[..|a|] == a && b[..|a|] == b;
  }

  // ---------------------------------------------------------------------------
  // Runs
  // ---------------------------------------------------------------------------

  lemma OffersConfiguration(i: Inputs, c: Configuration)
    requires OffersAll(i, ConfigurationEvents(c))
    ensures OffersAll(i, c.first) && (Refused(c.first) ==> OffersAll(AfterAll(i, c.first), c.again))
  {
    var offer, again := [Sent(Configure(PAYLOAD))], [Sent(Configure(Negotiated(c)))];
    OffersSent(i, Configure(PAYLOAD));
    OffersSent(AfterAll(i, c.first), Configure(Negotiated(c)));
    hide OffersAll, AfterAll, Refused, Negotiated;
    OffersConcat(i, offer, c.first);
    if Refused(c.first) {
      OffersConcat(i, offer + c.first, again + c.again);
      OffersConcat(AfterAll(i, offer + c.first), again, c.again);
    } else {
      assert offer + c.first + [] == offer + c.first;
    }
  }

  lemma OffersSent(i: Inputs, c: Command)
    ensures OffersAll(i, [Sent(c)]) && AfterAll(i, [Sent(c)]) == i
  {
    assert [Sent(c)][..0] == [];
  }

  lemma SameConfiguration(i: Inputs, a: Configuration, b: Configuration)
    requires IsConfiguration(a) && IsConfiguration(b)
    requires OffersAll(i, ConfigurationEvents(a)) && OffersAll(i, ConfigurationEvents(b))
    ensures a == b
  {
    OffersConfiguration(i, a);
    OffersConfiguration(i, b);
    hide OffersAll, AfterAll, ConfigurationEvents;
    SameWait(i, a.first, b.first);
    if Refused(a.first) {
      SameWait(AfterAll(i, a.first), a.again, b.again);
    }
  }

  /** Phase by phase. */
  ghost predicate OffersPhases(i: Inputs, a: RunLog) {
    var i1 := AfterAll(i, Flatten(a.bootErase));
    var i2 := AfterAll(i1, Flatten(a.vendors));
    var i3 := AfterAll(i2, Flatten(a.erases));
    var i4 := AfterAll(i3, Flatten(a.programs));
    var i5 := AfterAll(i4, Flatten(a.bootProgram));
    && OffersAll(i, Flatten(a.bootErase)) && OffersAll(i1, Flatten(a.vendors)) && OffersAll(i2, Flatten(a.erases))
    && OffersAll(i3, Flatten(a.programs)) && OffersAll(i4, Flatten(a.bootProgram)) && OffersAll(i5, Flatten(a.reset))
  }

  lemma OffersSteps(i: Inputs, a: RunLog)
    requires OffersAll(i, Flatten(Steps(a)))
    ensures OffersPhases(i, a)
  {
    hide OffersAll, AfterAll, Flatten;
    var b, v, e := Flatten(a.bootErase), Flatten(a.vendors), Flatten(a.erases);
    var p, q, r := Flatten(a.programs), Flatten(a.bootProgram), Flatten(a.reset);
    FlattenSix(a.bootErase, a.vendors, a.erases, a.programs, a.bootProgram, a.reset);
    OffersConcat(i, b + v + e + p + q, r);
    OffersConcat(i, b + v + e + p, q);
    OffersConcat(i, b + v + e, p);
    OffersConcat(i, b + v, e);
    OffersConcat(i, b, v);
  }

  lemma SamePhases(i: Inputs, u: Setup, j: Job, a: RunLog, b: RunLog)
    requires Phases(u, j, a) && Phases(u, j, b) && OffersPhases(i, a) && OffersPhases(i, b)
    ensures Steps(a) == Steps(b) && a.(greeting := b.greeting, config := b.config, drain := b.drain) == b
  {
    hide OffersAll, AfterAll, Flatten, Follows, Done, Attempted, VendorPlan, JobErases, ProgramPlan, FirstBoot;
    SameAttempted(i, u, FirstBoot(true, j.t), a.bootErase, b.bootErase);
    var i1 := AfterAll(i, Flatten(a.bootErase));
    SameFollowed(i1, u, VendorPlan(j), a.vendors, b.vendors);
    if Done(u, VendorPlan(j), a.vendors) {
      var i2 := AfterAll(i1, Flatten(a.vendors));
      SameFollowed(i2, u, JobErases(j), a.erases, b.erases);
      if Done(u, JobErases(j), a.erases) {
        var i3 := AfterAll(i2, Flatten(a.erases));
        SameFollowed(i3, u, ProgramPlan(j), a.programs, b.programs);
        if Done(u, ProgramPlan(j), a.programs) {
          var i4 := AfterAll(i3, Flatten(a.programs));
          SameAttempted(i4, u, FirstBoot(false, j.t), a.bootProgram, b.bootProgram);
          SameFollowed(AfterAll(i4, Flatten(a.bootProgram)), u, [Reset], a.reset, b.reset);
        }
      }
    }
  }

  /** The parts of a run, from inputs that bring all of it. */
  lemma OffersRun(i: Inputs, a: RunLog)
    requires OffersAll(i, RunEvents(a))
    ensures var i1 := AfterAll(i, a.greeting);
            var i2 := AfterAll(i1, ConfigurationEvents(a.config));
            && OffersAll(i, a.greeting) && OffersAll(i1, ConfigurationEvents(a.config))
            && OffersAll(i2, Flatten(Steps(a))) && OffersAll(AfterAll(i2, Flatten(Steps(a))), a.drain)
  {
    hide OffersAll, AfterAll, Flatten, Steps, ConfigurationEvents;
    var g, c, t := a.greeting, ConfigurationEvents(a.config), Flatten(Steps(a));
    OffersConcat(i, g + c + t, a.drain);
    OffersConcat(i, g + c, t);
    OffersConcat(i, g, c);
  }

  /** A job and the inputs determine the run and its result. */
  lemma SameRun(i: Inputs, files: Directory, j: Job, a: RunLog, aOk: bool, b: RunLog, bOk: bool)
    requires Outcome(files, j, a, aOk) && Outcome(files, j, b, bOk)
    requires OffersAll(i, RunEvents(a)) && OffersAll(i, RunEvents(b))
    ensures a == b && aOk == bOk
  {
    hide OffersAll, AfterAll, Flatten, Phases, MainDone, Done, ConfigurationEvents, IsGreeting, IsDrain,
         IsConfiguration, OffersPhases, RunEvents;
    OffersRun(i, a);
    OffersRun(i, b);
    SameGreeting(i, a.greeting, b.greeting);
    var i1 := AfterAll(i, a.greeting);
    SameConfiguration(i1, a.config, b.config);
    var i2 := AfterAll(i1, ConfigurationEvents(a.config));
    if Configured(a.config) {
      var u := Setup(files, Negotiated(a.config));
      OffersSteps(i2, a);
      OffersSteps(i2, b);
      SamePhases(i2, u, j, a, b);
      PhasesOfSteps(u, j, a, b.greeting, b.drain);
      if aOk {
        SameDrain(AfterAll(i2, Flatten(Steps(a))), a.drain, b.drain);
      }
    } else {
      NoSteps(a);
      NoSteps(b);
    }
  }

  lemma NoSteps(a: RunLog)
    requires Steps(a) == []
    ensures a == RunLog(a.greeting, a.config, [], [], [], [], [], [], a.drain)
  {
    assert |Steps(a)| == |a.bootErase| + |a.vendors| + |a.erases| + |a.programs| + |a.bootProgram| + |a.reset|;
  }
}
