/** Whatever the device answers, and for every table: the boot loader is written last, no
    erase follows a program, and no program is sent twice. */
module FirehoseSafety {
  import opened FirehoseCommands
  import opened FirehoseProtocol
  import opened Options

  predicate IsBootProgram(c: Command) { c.Program? && c.program.start == 0 }

  function UnderWay(files: Directory, log: RunLog): Setup { Setup(files, Negotiated(log.config)) }

  /** A run in which the device has gone along with every step. */
  ghost predicate AllCompleted(files: Directory, log: RunLog) {
    forall i :: 0 <= i < |Steps(log)| ==> Completed(UnderWay(files, log), Steps(log)[i])
  }

  // ---------------------------------------------------------------------------
  // What an answer is worth
  // ---------------------------------------------------------------------------

  /** Any number of log lines, and then an answer. */
  function Wait(logs: nat, r: Reply): seq<Event> { seq(logs, _ => Got(Log)) + [Got(r)] }

  lemma WaitIs(logs: nat, r: Reply)
    requires !r.Log?
    ensures IsWait(Wait(logs, r)) && Verdict(Wait(logs, r)) == r
  {
    assert forall i :: 0 <= i < logs ==> Wait(logs, r)[i] == Got(Log);
  }

  /** A vendor or an erase command is done if and only if it is acknowledged. */
  lemma PlainExchange(u: Setup, c: Command, logs: nat, r: Reply)
    requires u.payload > 0 && (c.Vendor? || c.Erase?) && !r.Log?
    ensures var s := Step(c, Wait(logs, r), [], []);
            Exchanged(u, s) && (Completed(u, s) <==> r.Response? && r.value == Ack)
  {
    WaitIs(logs, r);
  }

  /** A reset is done with any answer, even a refusal. */
  lemma ResetExchange(u: Setup, logs: nat, r: Reply)
    requires u.payload > 0 && !r.Log?
    ensures var s := Step(Reset, Wait(logs, r), [], []); Exchanged(u, s) && (Completed(u, s) <==> r.Response?)
  {
    WaitIs(logs, r);
  }

  /** A program whose first answer does not switch raw mode on is over with that. */
  lemma ProgramRefused(u: Setup, p: ProgramCmd, logs: nat, r: Reply)
    requires u.payload > 0 && p.sectorSize > 0 && !r.Log? && !(r.Response? && r.value == Ack && r.rawmode)
    ensures var s := Step(Program(p), Wait(logs, r), [], []); Exchanged(u, s) && !Completed(u, s)
    ensures forall s: Step :: s.cmd == Program(p) && s.first == Wait(logs, r) && Exchanged(u, s) ==>
              s.image == [] && s.second == []
  {
    WaitIs(logs, r);
  }

  /** With raw mode on, the whole image and a second answer follow, and the program is done if
      and only if that answer switches raw mode off again. */
  lemma ProgramExchange(u: Setup, p: ProgramCmd, n: nat, max: uint32, m: nat, r: Reply)
    requires u.payload > 0 && p.sectorSize > 0 && FileOf(u.files, p).Some? && !r.Log?
    ensures var s := Step(Program(p), Wait(n, Response(Ack, true, max)), Delivered(ImageChunks(u, p)), Wait(m, r));
            Exchanged(u, s) && (Completed(u, s) <==> r.Response? && r.value == Ack && !r.rawmode)
  {
    hide ImageChunks, Delivered, Wait;
    WaitIs(n, Response(Ack, true, max));
    WaitIs(m, r);
  }

  /** The configuration is offered a second time if and only if the device refuses the first
      offer and names a payload size of its own, which is then used whatever it answers. */
  lemma ConfigurationExchange(n: nat, r: Reply, m: nat, again: Reply)
    requires !r.Log? && !again.Log?
    ensures var refused := r.Response? && r.value == Nak && r.maxPayload != 0;
            var c := Configuration(Wait(n, r), if refused then Wait(m, again) else []);
            && IsConfiguration(c)
            && Negotiated(c) == (if refused then r.maxPayload else 8192)
            && ConfigurationEvents(c)
               == [Sent(Configure(8192))] + Wait(n, r)
                  + (if refused then [Sent(Configure(r.maxPayload))] + Wait(m, again) else [])
            && (Configured(c)
                <==> if refused then again.Response? && again.value == Ack else r.Response? && r.value == Ack)
  {
    hide Wait;
    WaitIs(n, r);
    WaitIs(m, again);
  }

  // ---------------------------------------------------------------------------
  // What is picked
  // ---------------------------------------------------------------------------

  predicate Shaped(phase: Phase, c: Command) {
    match phase
    case Vendors => c.Vendor?
    case Erases => c.Erase? && c.erase.start != 0
    case Programs => c.Program? && c.program.start != 0
  }

  lemma {:induction false} PickSound(phase: Phase, part: Option<string>, t: seq<Entry>)
    ensures forall i :: 0 <= i < |Pick(phase, part, t)| ==> Shaped(phase, Pick(phase, part, t)[i])
  {
    if t != [] {
      PickSound(phase, part, t[..|t| - 1]);
    }
  }

  lemma {:induction false} PickComplete(phase: Phase, part: Option<string>, t: seq<Entry>, k: nat)
    requires k < |t| && Chosen(phase, part, t[k])
    ensures t[k].cmd in Pick(phase, part, t)
  {
    if k < |t| - 1 {
      PickComplete(phase, part, t[..|t| - 1], k);
    }
  }

  lemma {:induction false} PickedFrom(phase: Phase, part: Option<string>, t: seq<Entry>, i: nat)
    requires i < |Pick(phase, part, t)|
    ensures exists x :: 0 <= x < |t| && t[x].cmd == Pick(phase, part, t)[i] && Chosen(phase, part, t[x])
  {
    var n := |t| - 1;
    if i < |Pick(phase, part, t[..n])| {
      PickedFrom(phase, part, t[..n], i);
      var x :| 0 <= x < n && t[..n][x].cmd == Pick(phase, part, t[..n])[i] && Chosen(phase, part, t[..n][x]);
      assert t[x].cmd == Pick(phase, part, t)[i];
    } else {
      assert t[n].cmd == Pick(phase, part, t)[i];
    }
  }

  lemma {:induction false} BootFrom(erase: bool, t: seq<Entry>)
    ensures FirstBoot(erase, t) == [] ==> forall k :: 0 <= k < |t| ==> !IsBoot(erase, t[k])
    ensures FirstBoot(erase, t) != [] ==>
              exists x :: 0 <= x < |t| && IsBoot(erase, t[x]) && FirstBoot(erase, t) == [t[x].cmd]
  {
    if t != [] {
      var n := |t| - 1;
      BootFrom(erase, t[..n]);
      if FirstBoot(erase, t[..n]) != [] {
        var x :| 0 <= x < n && IsBoot(erase, t[..n][x]) && FirstBoot(erase, t[..n]) == [t[..n][x].cmd];
        assert IsBoot(erase, t[x]) && FirstBoot(erase, t) == [t[x].cmd];
      } else if IsBoot(erase, t[n]) {
        assert FirstBoot(erase, t) == [t[n].cmd];
      }
    }
  }

  lemma {:induction false} FirstBootSound(erase: bool, t: seq<Entry>)
    ensures var c := FirstBoot(erase, t);
            |c| <= 1 && forall i :: 0 <= i < |c| ==> if erase then c[i].Erase? else IsBootProgram(c[i])
  {
    if t != [] {
      FirstBootSound(erase, t[..|t| - 1]);
    }
  }

  lemma {:induction false} FirstWholeSound(part: Option<string>, t: seq<Entry>, max: uint32)
    ensures var c := FirstWhole(part, t, max); |c| <= 1 && forall i :: 0 <= i < |c| ==> c[i].Erase?
  {
    if t != [] {
      FirstWholeSound(part, t[..|t| - 1], max);
    }
  }

  /** The kinds of the commands in each phase. */
  lemma PhaseKinds(files: Directory, j: Job, log: RunLog, ok: bool)
    requires Outcome(files, j, log, ok)
    ensures forall i :: 0 <= i < |log.bootErase| ==> log.bootErase[i].cmd.Erase?
    ensures forall i :: 0 <= i < |log.vendors| ==> log.vendors[i].cmd.Vendor?
    ensures forall i :: 0 <= i < |log.erases| ==> log.erases[i].cmd.Erase?
    ensures forall i :: 0 <= i < |log.programs| ==> Shaped(Programs, log.programs[i].cmd)
    ensures forall i :: 0 <= i < |log.bootProgram| ==> IsBootProgram(log.bootProgram[i].cmd)
    ensures forall i :: 0 <= i < |log.reset| ==> log.reset[i].cmd.Reset?
  {
    hide Exchanged, Completed, Pick, FirstBoot, FirstWhole;
    PickSound(Vendors, j.part, j.t);
    PickSound(Erases, j.part, j.t);
    PickSound(Programs, j.part, j.t);
    FirstBootSound(true, j.t);
    FirstBootSound(false, j.t);
    FirstWholeSound(j.part, j.t, j.max);
  }

  // ---------------------------------------------------------------------------
  // The boot loader last
  // ---------------------------------------------------------------------------

  /** All steps before the boot loader's program. */
  function Early(log: RunLog): seq<Step> { log.bootErase + log.vendors + log.erases + log.programs }

  lemma StepsAre(log: RunLog)
    ensures Steps(log) == Early(log) + log.bootProgram + log.reset
  {
  }

  /** A boot-loader program among the steps stands after all early ones, which are then complete. */
  lemma BootProgramPlace(files: Directory, j: Job, log: RunLog, ok: bool, i: nat)
    requires Outcome(files, j, log, ok) && i < |Steps(log)| && IsBootProgram(Steps(log)[i].cmd)
    ensures Configured(log.config) && MainDone(UnderWay(files, log), j, log)
    ensures |Early(log)| <= i && Early(log) == Steps(log)[..|Early(log)|]
  {
    hide Outcome, Steps, Early, MainDone;
    PhaseKinds(files, j, log, ok);
    StepsAre(log);
    EarlyKinds(files, j, log, ok);
    LateKinds(files, j, log, ok);
    assert forall n :: 0 <= n < |Early(log)| ==> Steps(log)[n] == Early(log)[n];
    BootProgramLast(files, j, log, ok);
  }

  lemma LateKinds(files: Directory, j: Job, log: RunLog, ok: bool)
    requires Outcome(files, j, log, ok)
    ensures forall n :: |Early(log)| + |log.bootProgram| <= n < |Steps(log)| ==> Steps(log)[n].cmd.Reset?
  {
    hide Outcome;
    PhaseKinds(files, j, log, ok);
  }

  lemma EarlyKinds(files: Directory, j: Job, log: RunLog, ok: bool)
    requires Outcome(files, j, log, ok)
    ensures forall n :: 0 <= n < |Early(log)| ==> !IsBootProgram(Early(log)[n].cmd)
  {
    hide Outcome;
    PhaseKinds(files, j, log, ok);
  }

  lemma BootProgramLast(files: Directory, j: Job, log: RunLog, ok: bool)
    requires Outcome(files, j, log, ok) && log.bootProgram != []
    ensures Configured(log.config) && MainDone(UnderWay(files, log), j, log)
  {
    hide Follows, Done, Attempted, MainDone;
    assert |Steps(log)| >= |log.bootProgram|;
  }

  /** `c` was sent before position `i` and the device went along with all of it. */
  ghost predicate AckedBefore(u: Setup, steps: seq<Step>, i: nat, c: Command)
    requires i <= |steps|
  {
    exists n :: 0 <= n < i && steps[n].cmd == c && Completed(u, steps[n])
  }

  lemma DoneIsAcked(u: Setup, plan: seq<Command>, before: seq<Step>, done: seq<Step>, after: seq<Step>, c: Command)
    requires Done(u, plan, done) && c in plan
    ensures AckedBefore(u, before + done + after, |before| + |done|, c)
  {
    var m :| 0 <= m < |plan| && plan[m] == c;
    assert (before + done + after)[|before| + m] == done[m];
  }

  /** When the boot loader's program is sent, every vendor command, every selected erase and
      every other selected program has been acknowledged; a program's acknowledgement is the
      whole exchange of raw mode on, image and raw mode off. */
  lemma BootLoaderLast(files: Directory, j: Job, log: RunLog, ok: bool, i: nat)
    requires Outcome(files, j, log, ok) && i < |Steps(log)| && IsBootProgram(Steps(log)[i].cmd)
    ensures Configured(log.config)
    ensures forall k, phase :: 0 <= k < |j.t| && Chosen(phase, j.part, j.t[k]) && (j.eraseAll ==> phase != Erases) ==>
              AckedBefore(UnderWay(files, log), Steps(log), i, j.t[k].cmd)
    ensures forall c :: j.eraseAll && c in FirstWhole(j.part, j.t, j.max) ==>
              AckedBefore(UnderWay(files, log), Steps(log), i, c)
  {
    hide Completed, Pick, FirstWhole, Chosen, Outcome, Phases, Done;
    var u := UnderWay(files, log);
    BootProgramPlace(files, j, log, ok, i);
    forall c | c in VendorPlan(j) || c in JobErases(j) || c in ProgramPlan(j)
      ensures AckedBefore(u, Steps(log), i, c)
    {
      EarlyAcked(u, j, log, c);
      var n :| 0 <= n < |Early(log)| && Early(log)[n].cmd == c && Completed(u, Early(log)[n]);
      assert Steps(log)[n] == Early(log)[n];
    }
    forall k, phase | 0 <= k < |j.t| && Chosen(phase, j.part, j.t[k]) && (j.eraseAll ==> phase != Erases)
      ensures AckedBefore(u, Steps(log), i, j.t[k].cmd)
    {
      PickComplete(phase, j.part, j.t, k);
      var c := j.t[k].cmd;
      match phase
      case Vendors => assert c in VendorPlan(j);
      case Erases => assert c in JobErases(j);
      case Programs => assert c in ProgramPlan(j);
    }
  }

  lemma EarlyAcked(u: Setup, j: Job, log: RunLog, c: Command)
    requires MainDone(u, j, log) && (c in VendorPlan(j) || c in JobErases(j) || c in ProgramPlan(j))
    ensures AckedBefore(u, Early(log), |Early(log)|, c)
  {
    hide Completed, Pick, FirstWhole, Done, VendorPlan, JobErases, ProgramPlan;
    if c in VendorPlan(j) {
      DoneIsAcked(u, VendorPlan(j), log.bootErase, log.vendors, log.erases + log.programs, c);
      assert Early(log) == log.bootErase + log.vendors + (log.erases + log.programs);
    } else if c in JobErases(j) {
      DoneIsAcked(u, JobErases(j), log.bootErase + log.vendors, log.erases, log.programs, c);
    } else {
      DoneIsAcked(u, ProgramPlan(j), log.bootErase + log.vendors + log.erases, log.programs, [], c);
      assert Early(log) == log.bootErase + log.vendors + log.erases + log.programs + [];
    }
  }

  /** No erase after a program. */
  lemma NoEraseAfterProgram(files: Directory, j: Job, log: RunLog, ok: bool, m: nat, n: nat)
    requires Outcome(files, j, log, ok) && m < n < |Steps(log)| && Steps(log)[m].cmd.Program?
    ensures !Steps(log)[n].cmd.Erase?
  {
    hide Outcome;
    PhaseKinds(files, j, log, ok);
    var head := log.bootErase + log.vendors + log.erases;
    var tail := log.programs + log.bootProgram + log.reset;
    assert Steps(log) == head + tail;
    assert forall i :: 0 <= i < |head| ==> Steps(log)[i] == head[i] && !head[i].cmd.Program?;
    assert forall i :: |head| <= i < |Steps(log)| ==> Steps(log)[i] == tail[i - |head|] && !tail[i - |head|].cmd.Erase?;
  }

  // ---------------------------------------------------------------------------
  // Nothing after a failure
  // ---------------------------------------------------------------------------

  lemma FailedIsLast(u: Setup, plan: seq<Command>, steps: seq<Step>, m: nat)
    requires Follows(u, plan, steps) && m < |steps| && !Completed(u, steps[m])
    ensures m == |steps| - 1 && !Done(u, plan, steps)
  {
    hide Completed;
  }

  /** The first command that the device does not go along with ends the run without success;
      only the boot loader's erase and program may fail and the run go on. */
  lemma StopsAtFailure(files: Directory, j: Job, log: RunLog, ok: bool, i: nat)
    requires Outcome(files, j, log, ok) && |FirstBoot(true, j.t)| <= i < |Steps(log)|
    requires !IsBootProgram(Steps(log)[i].cmd) && !Completed(UnderWay(files, log), Steps(log)[i])
    ensures i == |Steps(log)| - 1 && !ok
  {
    hide Follows, Completed, FirstBoot, VendorPlan, JobErases, ProgramPlan;
    PhaseKinds(files, j, log, ok);
    var u := UnderWay(files, log);
    var a, b, c := |log.bootErase|, |log.bootErase + log.vendors|, |log.bootErase + log.vendors + log.erases|;
    if i < b {
      FailedIsLast(u, VendorPlan(j), log.vendors, i - a);
    } else if i < c {
      FailedIsLast(u, JobErases(j), log.erases, i - b);
    } else if i < c + |log.programs| {
      FailedIsLast(u, ProgramPlan(j), log.programs, i - c);
    } else {
      StepsAre(log);
      assert i >= |Early(log)| + |log.bootProgram|;
      FailedIsLast(u, [Reset], log.reset, i - |Early(log)| - |log.bootProgram|);
    }
  }

  /** After a reset that was answered the host receives until a receive fails. */
  lemma DrainIs(replies: seq<Reply>)
    ensures IsDrain(seq(|replies|, i requires 0 <= i < |replies| => Got(replies[i])) + [Got(Failure)])
            <==> Failure !in replies
  {
    var w := seq(|replies|, i requires 0 <= i < |replies| => Got(replies[i])) + [Got(Failure)];
    assert forall i :: 0 <= i < |replies| ==> w[i] == Got(replies[i]);
  }

  // ---------------------------------------------------------------------------
  // At most once, in table order
  // ---------------------------------------------------------------------------

  function ProgramsIn(boot: bool, steps: seq<Step>): seq<Command> {
    if steps == [] then []
    else
      var c := steps[|steps| - 1].cmd;
      ProgramsIn(boot, steps[..|steps| - 1]) + if c.Program? && boot == IsBootProgram(c) then [c] else []
  }

  lemma {:induction false} ProgramsInConcat(boot: bool, a: seq<Step>, b: seq<Step>)
    ensures ProgramsIn(boot, a + b) == ProgramsIn(boot, a) + ProgramsIn(boot, b)
  {
    if b == [] {
      assert a + b == a;
    } else {
      ProgramsInConcat(boot, a, b[..|b| - 1]);
      assert (a + b)[..|a + b| - 1] == a + b[..|b| - 1];
    }
  }

  lemma {:induction false} NoProgramsIn(boot: bool, steps: seq<Step>)
    requires forall i :: 0 <= i < |steps| ==> !steps[i].cmd.Program? || boot != IsBootProgram(steps[i].cmd)
    ensures ProgramsIn(boot, steps) == []
  {
    if steps != [] {
      NoProgramsIn(boot, steps[..|steps| - 1]);
    }
  }

  lemma {:induction false} OnlyProgramsIn(boot: bool, steps: seq<Step>, plan: seq<Command>)
    requires |steps| <= |plan| && forall i :: 0 <= i < |steps| ==>
               steps[i].cmd == plan[i] && plan[i].Program? && boot == IsBootProgram(plan[i])
    ensures ProgramsIn(boot, steps) == plan[..|steps|]
  {
    if steps != [] {
      OnlyProgramsIn(boot, steps[..|steps| - 1], plan);
    }
  }

  /** The programs that are sent, the boot loader's apart, are the first so many of the
      selected ones, in table order, each sent once; the boot loader's is sent at most once. */
  lemma ProgramsSentOnce(files: Directory, j: Job, log: RunLog, ok: bool)
    requires Outcome(files, j, log, ok)
    ensures ProgramsIn(false, Steps(log)) <= Pick(Programs, j.part, j.t)
    ensures ProgramsIn(true, Steps(log)) <= FirstBoot(false, j.t) && |FirstBoot(false, j.t)| <= 1
  {
    hide Exchanged, Completed, Pick, FirstBoot, ProgramsIn;
    FirstBootSound(false, j.t);
    PhaseKinds(files, j, log, ok);
    StepsAre(log);
    var head := log.bootErase + log.vendors + log.erases;
    assert Early(log) == head + log.programs;
    forall boot ensures ProgramsIn(boot, Steps(log))
                        == ProgramsIn(boot, log.programs) + ProgramsIn(boot, log.bootProgram) {
      ProgramsInConcat(boot, Early(log) + log.bootProgram, log.reset);
      ProgramsInConcat(boot, Early(log), log.bootProgram);
      ProgramsInConcat(boot, head, log.programs);
      NoProgramsIn(boot, head);
      NoProgramsIn(boot, log.reset);
    }
    ProgramSegments(files, j, log, ok);
  }

  lemma ProgramSegments(files: Directory, j: Job, log: RunLog, ok: bool)
    requires Outcome(files, j, log, ok)
    ensures ProgramsIn(true, log.programs) == [] && ProgramsIn(false, log.programs) <= Pick(Programs, j.part, j.t)
    ensures ProgramsIn(false, log.bootProgram) == [] && ProgramsIn(true, log.bootProgram) <= FirstBoot(false, j.t)
  {
    hide Exchanged, Completed, Pick, FirstBoot, ProgramsIn;
    PhaseKinds(files, j, log, ok);
    PickSound(Programs, j.part, j.t);
    FirstBootSound(false, j.t);
    NoProgramsIn(true, log.programs);
    NoProgramsIn(false, log.bootProgram);
    if log.programs == [] {
      NoProgramsIn(false, log.programs);
    } else {
      OnlyProgramsIn(false, log.programs, ProgramPlan(j));
    }
    if log.bootProgram == [] {
      NoProgramsIn(true, log.bootProgram);
    } else {
      OnlyProgramsIn(true, log.bootProgram, FirstBoot(false, j.t));
    }
  }

  // ---------------------------------------------------------------------------
  // The wire
  // ---------------------------------------------------------------------------

  /** The commands that go over the wire. */
  function Wire(events: seq<Event>): seq<Command> {
    if events == [] then []
    else Wire(events[..|events| - 1]) + if events[|events| - 1].Sent? then [events[|events| - 1].cmd] else []
  }

  function Commands(steps: seq<Step>): seq<Command> { seq(|steps|, i requires 0 <= i < |steps| => steps[i].cmd) }

  lemma {:induction false} WireConcat(a: seq<Event>, b: seq<Event>)
    ensures Wire(a + b) == Wire(a) + Wire(b)
  {
    if b == [] {
      assert a + b == a;
    } else {
      WireConcat(a, b[..|b| - 1]);
      assert (a + b)[..|a + b| - 1] == a + b[..|b| - 1];
    }
  }

  lemma {:induction false} NothingSent(events: seq<Event>)
    requires forall i :: 0 <= i < |events| ==> !events[i].Sent?
    ensures Wire(events) == []
  {
    if events != [] {
      NothingSent(events[..|events| - 1]);
    }
  }

  predicate NoneSent(events: seq<Event>) { forall i :: 0 <= i < |events| ==> !events[i].Sent? }

  lemma OnlyTheCommandIsSent(u: Setup, s: Step)
    requires Exchanged(u, s)
    ensures NoneSent(s.first) && NoneSent(s.image) && NoneSent(s.second)
  {
    hide ImageChunks;
  }

  lemma WireOfStep(u: Setup, s: Step)
    requires Exchanged(u, s)
    ensures Wire(Events(s)) == [s.cmd]
  {
    OnlyTheCommandIsSent(u, s);
    hide Exchanged, Wire;
    NothingSent(s.first);
    NothingSent(s.image);
    NothingSent(s.second);
    WireConcat([Sent(s.cmd)] + s.first + s.image, s.second);
    WireConcat([Sent(s.cmd)] + s.first, s.image);
    WireConcat([Sent(s.cmd)], s.first);
    WireOfOne(s.cmd);
  }

  lemma WireOfOne(c: Command)
    ensures Wire([Sent(c)]) == [c]
  {
    assert [Sent(c)][..0] == [];
  }

  /** Steps are the commands on the wire, nothing more and nothing less. */
  lemma {:induction false} WireOfSteps(u: Setup, steps: seq<Step>)
    requires forall i :: 0 <= i < |steps| ==> Exchanged(u, steps[i])
    ensures Wire(Flatten(steps)) == Commands(steps)
  {
    if steps != [] {
      hide Exchanged, Events;
      var n := |steps| - 1;
      WireOfSteps(u, steps[..n]);
      WireOfStep(u, steps[n]);
      WireConcat(Flatten(steps[..n]), Events(steps[n]));
      assert Commands(steps) == Commands(steps[..n]) + [steps[n].cmd];
    }
  }

  lemma StepsExchanged(files: Directory, j: Job, log: RunLog, ok: bool)
    requires Outcome(files, j, log, ok)
    ensures forall i :: 0 <= i < |Steps(log)| ==> Exchanged(UnderWay(files, log), Steps(log)[i])
  {
    hide Exchanged, Completed, Pick, FirstBoot, FirstWhole;
    if Configured(log.config) {
      var all := Steps(log);
      forall i | 0 <= i < |all| ensures Exchanged(UnderWay(files, log), all[i]) {
        assert all[i] in log.bootErase || all[i] in log.vendors || all[i] in log.erases
               || all[i] in log.programs || all[i] in log.bootProgram || all[i] in log.reset;
      }
    }
  }

  lemma WireOfConfiguration(c: Configuration)
    requires IsConfiguration(c)
    ensures Wire(ConfigurationEvents(c))
            == [Configure(PAYLOAD)] + if Refused(c.first) then [Configure(Negotiated(c))] else []
  {
    NothingSent(c.first);
    NothingSent(c.again);
    WireOfOne(Configure(PAYLOAD));
    WireOfOne(Configure(Negotiated(c)));
    WireConcat([Sent(Configure(PAYLOAD))], c.first);
    if Refused(c.first) {
      WireConcat([Sent(Configure(Negotiated(c)))], c.again);
      WireConcat([Sent(Configure(PAYLOAD))] + c.first, [Sent(Configure(Negotiated(c)))] + c.again);
    } else {
      assert [Sent(Configure(PAYLOAD))] + c.first + [] == [Sent(Configure(PAYLOAD))] + c.first;
    }
  }

  /** What a run puts on the wire: one or two configurations, and the commands of its steps. */
  lemma WireOfRun(files: Directory, j: Job, log: RunLog, ok: bool)
    requires Outcome(files, j, log, ok)
    ensures Wire(RunEvents(log))
            == [Configure(PAYLOAD)] + (if Refused(log.config.first) then [Configure(Negotiated(log.config))] else [])
               + Commands(Steps(log))
  {
    hide Phases, Done, MainDone, Exchanged, Wire, Flatten, ConfigurationEvents;
    StepsExchanged(files, j, log, ok);
    WireOfSteps(UnderWay(files, log), Steps(log));
    WireOfConfiguration(log.config);
    NothingSent(log.greeting);
    NothingSent(log.drain);
    WireConcat(log.greeting + ConfigurationEvents(log.config) + Flatten(Steps(log)), log.drain);
    WireConcat(log.greeting + ConfigurationEvents(log.config), Flatten(Steps(log)));
    WireConcat(log.greeting, ConfigurationEvents(log.config));
  }
}
