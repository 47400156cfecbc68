/** What the result of a run is worth, and what a part upgrade sends: both are decided by the
    table entries at sector 0, whose commands are sent whatever is selected and whatever
    becomes of them. */
module FirehoseSuccess {
  import opened FirehoseCommands
  import opened FirehoseProtocol
  import opened FirehoseSafety
  import opened Options

  // ---------------------------------------------------------------------------
  // A device that refuses the boot loader and nothing else
  // ---------------------------------------------------------------------------

  const ON := [Got(Response(Ack, true, 0))]
  const OFF := [Got(Response(Ack, false, 0))]
  const NO := [Got(Response(Nak, false, 0))]
  const SILENCE := [Got(Failure)]

  lemma Waits()
    ensures RawOn(ON) && RawOff(OFF) && IsWait(NO) && !Acked(NO) && !Refused(OFF)
  {
  }

  /** What can be sent at all: an image needs its file. */
  predicate Sendable(files: Directory, c: Command) {
    c.Program? ==> c.program.sectorSize > 0 && FileOf(files, c.program).Some?
  }

  function GoodStep(u: Setup, c: Command): Step
    requires u.payload > 0 && Sendable(u.files, c)
  {
    if c.Program? then Step(c, ON, Delivered(ImageChunks(u, c.program)), OFF) else Step(c, OFF, [], [])
  }

  lemma GoodStepCompletes(u: Setup, c: Command)
    requires u.payload > 0 && Sendable(u.files, c)
    ensures Exchanged(u, GoodStep(u, c)) && Completed(u, GoodStep(u, c))
  {
    hide ImageChunks, Delivered;
    Waits();
  }

  lemma RefusedStep(u: Setup, c: Command)
    requires u.payload > 0 && !c.Reset? && (c.Program? ==> c.program.sectorSize > 0)
    ensures Exchanged(u, Step(c, NO, [], [])) && !Completed(u, Step(c, NO, [], []))
  {
    Waits();
  }

  ghost predicate AllSendable(files: Directory, plan: seq<Command>) {
    forall i :: 0 <= i < |plan| ==> Sendable(files, plan[i])
  }

  ghost function GoodSteps(u: Setup, plan: seq<Command>): seq<Step>
    requires u.payload > 0 && AllSendable(u.files, plan)
  {
    seq(|plan|, i requires 0 <= i < |plan| => GoodStep(u, plan[i]))
  }

  lemma GoodStepsDone(u: Setup, plan: seq<Command>)
    requires u.payload > 0 && AllSendable(u.files, plan)
    ensures Follows(u, plan, GoodSteps(u, plan)) && Done(u, plan, GoodSteps(u, plan))
  {
    hide Exchanged, Completed, GoodStep;
    forall i | 0 <= i < |plan|
      ensures Exchanged(u, GoodSteps(u, plan)[i]) && Completed(u, GoodSteps(u, plan)[i])
    {
      GoodStepCompletes(u, plan[i]);
    }
    forall i | 0 <= i < |plan| ensures GoodSteps(u, plan)[i].cmd == plan[i] {
      CommandOfGoodStep(u, plan[i]);
    }
  }

  lemma CommandOfGoodStep(u: Setup, c: Command)
    requires u.payload > 0 && Sendable(u.files, c)
    ensures GoodStep(u, c).cmd == c
  {
  }

  function RefusedSteps(plan: seq<Command>): seq<Step> {
    seq(|plan|, i requires 0 <= i < |plan| => Step(plan[i], NO, [], []))
  }

  ghost predicate Playable(files: Directory, j: Job) {
    && AllSendable(files, VendorPlan(j)) && AllSendable(files, JobErases(j)) && AllSendable(files, ProgramPlan(j))
    && forall k :: 0 <= k < |j.t| && j.t[k].cmd.Program? ==> j.t[k].cmd.program.sectorSize > 0
  }

  ghost function RefusingRun(files: Directory, j: Job): RunLog
    requires Playable(files, j)
  {
    var u := Setup(files, PAYLOAD);
    RunLog(SILENCE + SILENCE, Configuration(OFF, []), RefusedSteps(FirstBoot(true, j.t)), GoodSteps(u, VendorPlan(j)),
           GoodSteps(u, JobErases(j)), GoodSteps(u, ProgramPlan(j)), RefusedSteps(FirstBoot(false, j.t)),
           GoodSteps(u, [Reset]), SILENCE)
  }

  lemma RefusedAttempt(u: Setup, erase: bool, t: seq<Entry>)
    requires u.payload > 0 && forall k :: 0 <= k < |t| && t[k].cmd.Program? ==> t[k].cmd.program.sectorSize > 0
    ensures Attempted(u, FirstBoot(erase, t), RefusedSteps(FirstBoot(erase, t)))
    ensures forall i :: 0 <= i < |FirstBoot(erase, t)| ==> !Completed(u, RefusedSteps(FirstBoot(erase, t))[i])
  {
    hide Exchanged, Completed, FirstBoot;
    BootFrom(erase, t);
    var plan := FirstBoot(erase, t);
    forall i | 0 <= i < |plan|
      ensures Exchanged(u, RefusedSteps(plan)[i]) && !Completed(u, RefusedSteps(plan)[i])
    {
      RefusedStep(u, plan[i]);
    }
  }

  /** Such a run succeeds. */
  lemma RefusingRunSucceeds(files: Directory, j: Job)
    requires Playable(files, j)
    ensures Outcome(files, j, RefusingRun(files, j), true)
  {
    var u := Setup(files, PAYLOAD);
    Waits();
    hide Follows, Done, Attempted, GoodSteps, RefusedSteps, VendorPlan, JobErases, ProgramPlan, FirstBoot;
    RefusedAttempt(u, true, j.t);
    RefusedAttempt(u, false, j.t);
    GoodStepsDone(u, VendorPlan(j));
    GoodStepsDone(u, JobErases(j));
    GoodStepsDone(u, ProgramPlan(j));
    GoodStepsDone(u, [Reset]);
  }

  // ---------------------------------------------------------------------------
  // Tables that a run starts with
  // ---------------------------------------------------------------------------

  /** Preparing keeps what an entry is and where it starts; a program is selected when it is
      wanted, and then its file is there. */
  lemma PreparedKeeps(files: Directory, part: Option<string>, t: seq<Entry>, k: nat)
    requires IsTable(t) && Starts(files, part, t) && k < |t|
    ensures var e := Prepared(files, part, t)[k];
            && (IsBoot(true, e) <==> IsBoot(true, t[k])) && (IsBoot(false, e) <==> IsBoot(false, t[k]))
            && (e.cmd.Program? <==> t[k].cmd.Program?)
            && (e.cmd.Program? ==> e.cmd.program.sectorSize > 0)
            && (Selected(part, e) ==> Sendable(files, e.cmd))
  {
    hide NamedAt;
    if t[k].cmd.Program? && Wanted(part, t[k]) {
      SectorsInTwoSteps(0, t[k].cmd.program.sectorSize);
    }
  }

  lemma StartsPlayable(files: Directory, part: Option<string>, eraseAll: bool, t: seq<Entry>)
    requires IsTable(t) && Starts(files, part, t)
    ensures Playable(files, JobOf(files, part, eraseAll, t))
  {
    hide Prepared, Pick, FirstWhole, Starts;
    var j := JobOf(files, part, eraseAll, t);
    PreparedLength(files, part, t);
    forall k | 0 <= k < |t|
      ensures j.t[k].cmd.Program? ==> j.t[k].cmd.program.sectorSize > 0
      ensures Selected(part, j.t[k]) ==> Sendable(files, j.t[k].cmd)
    {
      PreparedKeeps(files, part, t, k);
    }
    PickSendable(files, Vendors, j);
    PickSendable(files, Erases, j);
    PickSendable(files, Programs, j);
    FirstWholeSound(part, j.t, j.max);
  }

  lemma PreparedLength(files: Directory, part: Option<string>, t: seq<Entry>)
    requires IsTable(t)
    ensures |Prepared(files, part, t)| == |t|
  {
  }

  lemma PickSendable(files: Directory, phase: Phase, j: Job)
    requires forall k :: 0 <= k < |j.t| && Selected(j.part, j.t[k]) ==> Sendable(files, j.t[k].cmd)
    ensures AllSendable(files, Pick(phase, j.part, j.t))
  {
    hide Pick;
    PickSound(phase, j.part, j.t);
    forall i | 0 <= i < |Pick(phase, j.part, j.t)| ensures Sendable(files, Pick(phase, j.part, j.t)[i]) {
      PickedFrom(phase, j.part, j.t, i);
    }
  }

  // ---------------------------------------------------------------------------
  // Success
  // ---------------------------------------------------------------------------

  predicate HasBootEntry(t: seq<Entry>) {
    exists k :: 0 <= k < |t| && (IsBoot(true, t[k]) || IsBoot(false, t[k]))
  }

  lemma BootIffEntry(t: seq<Entry>)
    ensures HasBootEntry(t) <==> FirstBoot(true, t) != [] || FirstBoot(false, t) != []
  {
    hide FirstBoot;
    BootFrom(true, t);
    BootFrom(false, t);
  }

  /** Without commands at sector 0, success means that all steps were acknowledged. */
  lemma SuccessWithoutBoot(files: Directory, j: Job, log: RunLog)
    requires Outcome(files, j, log, true) && FirstBoot(true, j.t) == [] && FirstBoot(false, j.t) == []
    ensures AllCompleted(files, log)
  {
    hide Exchanged, Completed, Pick, FirstBoot, FirstWhole, Follows;
    var u, all := UnderWay(files, log), Steps(log);
    forall i | 0 <= i < |all| ensures Completed(u, all[i]) {
      assert all[i] in log.vendors || all[i] in log.erases || all[i] in log.programs || all[i] in log.reset;
    }
  }

  /** Success means that the device went along with everything, whatever it answers, exactly
      if no entry of the table starts at sector 0. */
  lemma SuccessIsCompleteIff(files: Directory, part: Option<string>, eraseAll: bool, t: seq<Entry>)
    requires IsTable(t) && Starts(files, part, t)
    ensures (forall log :: Outcome(files, JobOf(files, part, eraseAll, t), log, true) ==> AllCompleted(files, log))
            <==> !HasBootEntry(t)
  {
    var j := JobOf(files, part, eraseAll, t);
    SameBootEntries(files, part, t);
    BootIffEntry(j.t);
    if !HasBootEntry(t) {
      forall log | Outcome(files, j, log, true) ensures AllCompleted(files, log) {
        SuccessWithoutBoot(files, j, log);
      }
    } else {
      StartsPlayable(files, part, eraseAll, t);
      RefusingRunSucceeds(files, j);
      RefusingRunFails(files, j);
    }
  }

  lemma SameBootEntries(files: Directory, part: Option<string>, t: seq<Entry>)
    requires IsTable(t) && Starts(files, part, t)
    ensures HasBootEntry(Prepared(files, part, t)) <==> HasBootEntry(t)
  {
    hide Prepared, Starts, IsBoot;
    var after := Prepared(files, part, t);
    PreparedLength(files, part, t);
    forall k | 0 <= k < |t|
      ensures (IsBoot(true, after[k]) <==> IsBoot(true, t[k])) && (IsBoot(false, after[k]) <==> IsBoot(false, t[k]))
    {
      PreparedKeeps(files, part, t, k);
    }
  }

  /** Where the boot loader's commands stand among the steps. */
  lemma BootStepsAt(log: RunLog)
    ensures forall i :: 0 <= i < |log.bootErase| ==> log.bootErase[i] in Steps(log)
    ensures forall i :: 0 <= i < |log.bootProgram| ==> log.bootProgram[i] in Steps(log)
  {
    forall i | 0 <= i < |log.bootErase| ensures log.bootErase[i] in Steps(log) {
      assert Steps(log)[i] == log.bootErase[i];
    }
    forall i | 0 <= i < |log.bootProgram| ensures log.bootProgram[i] in Steps(log) {
      assert Steps(log)[|Early(log)| + i] == log.bootProgram[i];
    }
  }

  lemma RefusingRunFails(files: Directory, j: Job)
    requires Playable(files, j) && HasBootEntry(j.t)
    ensures !AllCompleted(files, RefusingRun(files, j))
  {
    var log := RefusingRun(files, j);
    var u := Setup(files, PAYLOAD);
    assert UnderWay(files, log) == u by {
      Waits();
    }
    BootIffEntry(j.t);
    BootStepsAt(log);
    RefusedAttempt(u, true, j.t);
    RefusedAttempt(u, false, j.t);
    hide Completed, FirstBoot, GoodSteps, VendorPlan, JobErases, ProgramPlan;
    var boot := if FirstBoot(true, j.t) != [] then log.bootErase[0] else log.bootProgram[0];
    assert boot in Steps(log) && !Completed(u, boot);
  }

  // ---------------------------------------------------------------------------
  // Part upgrades
  // ---------------------------------------------------------------------------

  /** `c` is the command of an entry that is selected. */
  ghost predicate FromSelected(j: Job, c: Command) {
    exists k :: 0 <= k < |j.t| && Selected(j.part, j.t[k]) && j.t[k].cmd == c
  }

  ghost predicate OnlySelected(j: Job, steps: seq<Step>) {
    forall s :: s in steps && (s.cmd.Erase? || s.cmd.Program?) ==> FromSelected(j, s.cmd)
  }

  ghost predicate BootSelected(j: Job) {
    forall c :: c in FirstBoot(true, j.t) || c in FirstBoot(false, j.t) ==> FromSelected(j, c)
  }

  lemma PickedIsSelected(phase: Phase, j: Job, i: nat)
    requires phase != Vendors && i < |Pick(phase, j.part, j.t)|
    ensures FromSelected(j, Pick(phase, j.part, j.t)[i])
  {
    hide Pick;
    PickedFrom(phase, j.part, j.t, i);
  }

  lemma SelectedInRun(files: Directory, j: Job, log: RunLog, ok: bool)
    requires !j.eraseAll && Outcome(files, j, log, ok) && BootSelected(j)
    ensures OnlySelected(j, Steps(log))
  {
    hide Exchanged, Completed, Pick, FirstBoot, FirstWhole, FromSelected;
    PhaseKinds(files, j, log, ok);
    if Configured(log.config) {
      forall i | 0 <= i < |log.erases| ensures FromSelected(j, log.erases[i].cmd) {
        PickedIsSelected(Erases, j, i);
      }
      forall i | 0 <= i < |log.programs| ensures FromSelected(j, log.programs[i].cmd) {
        PickedIsSelected(Programs, j, i);
      }
      forall i | 0 <= i < |log.bootErase| ensures FromSelected(j, log.bootErase[i].cmd) {
        assert log.bootErase[i].cmd in FirstBoot(true, j.t);
      }
      forall i | 0 <= i < |log.bootProgram| ensures FromSelected(j, log.bootProgram[i].cmd) {
        assert log.bootProgram[i].cmd in FirstBoot(false, j.t);
      }
      forall s | s in Steps(log) && (s.cmd.Erase? || s.cmd.Program?) ensures FromSelected(j, s.cmd) {
        assert s in log.bootErase || s in log.vendors || s in log.erases || s in log.programs || s in log.bootProgram
            || s in log.reset;
      }
    }
  }

  /** Nothing is erased or programmed but what is selected, in any run without erasing
      everything, exactly if the first commands at sector 0 are selected. */
  lemma OnlySelectedIff(files: Directory, part: Option<string>, t: seq<Entry>)
    requires IsTable(t) && Starts(files, part, t)
    ensures var j := JobOf(files, part, false, t);
            (forall log, ok :: Outcome(files, j, log, ok) ==> OnlySelected(j, Steps(log))) <==> BootSelected(j)
  {
    var j := JobOf(files, part, false, t);
    hide OnlySelected, BootSelected, Outcome, Starts;
    if BootSelected(j) {
      forall log, ok | Outcome(files, j, log, ok) ensures OnlySelected(j, Steps(log)) {
        SelectedInRun(files, j, log, ok);
      }
    } else {
      StartsPlayable(files, part, false, t);
      RefusingRunSucceeds(files, j);
      UnselectedBootIsSent(files, j);
    }
  }

  lemma UnselectedBootIsSent(files: Directory, j: Job)
    requires Playable(files, j) && !BootSelected(j)
    ensures !OnlySelected(j, Steps(RefusingRun(files, j)))
  {
    hide FromSelected, GoodSteps, VendorPlan, JobErases, ProgramPlan, FirstBoot;
    var log := RefusingRun(files, j);
    BootStepsAt(log);
    FirstBootSound(true, j.t);
    FirstBootSound(false, j.t);
    var c :| (c in FirstBoot(true, j.t) || c in FirstBoot(false, j.t)) && !FromSelected(j, c);
    if c in FirstBoot(true, j.t) {
      var i :| 0 <= i < |FirstBoot(true, j.t)| && FirstBoot(true, j.t)[i] == c;
      assert log.bootErase[i].cmd == c;
    } else {
      var i :| 0 <= i < |FirstBoot(false, j.t)| && FirstBoot(false, j.t)[i] == c;
      assert log.bootProgram[i].cmd == c;
    }
  }

  /** A boot loader and an application; only the application's file is there. */
  lemma TwoEntries() returns (files: Directory, t: seq<Entry>)
    ensures IsTable(t) && Starts(files, Some("app"), t) && |t| == 2
    ensures IsBoot(false, t[0]) && !IsBoot(false, t[1]) && !Named(Some("app"), t[0]) && t[1].cmd != t[0].cmd
            && !t[0].upgrade
    ensures Prepared(files, Some("app"), t)[0] == t[0] && Prepared(files, Some("app"), t)[1].cmd != t[0].cmd
  {
    var boot := ProgramCmd("../sbl", 0, 64, 1, "sbl", 0, 1, 0, 0);
    var app := ProgramCmd("../app", 0, 64, 1, "app", 0, 1, 0, 5);
    t := [Entry(Program(boot), false), Entry(Program(app), false)];
    files := map["../app" := [7]];
    assert "../app"[3..] == "app" && "../sbl"[3..][0] == 's';
    assert UnixName("../app") == "../app";
    assert !Named(Some("app"), t[0]) && Named(Some("app"), t[1]);
    assert FileSize(files, app) == 1 && SectorCount(1, 1) == 1;
  }

  /** A table for which a part upgrade of the application also sends the boot loader, and
      succeeds although the device refuses it. */
  lemma PartUpgradeSendsBootLoader() returns (files: Directory, t: seq<Entry>, log: RunLog)
    ensures IsTable(t) && Starts(files, Some("app"), t)
    ensures var j := JobOf(files, Some("app"), false, t);
            Outcome(files, j, log, true) && !OnlySelected(j, Steps(log)) && !AllCompleted(files, log)
  {
    files, t := TwoEntries();
    var j := JobOf(files, Some("app"), false, t);
    log := RefusingRun(files, j) by {
      StartsPlayable(files, Some("app"), false, t);
    }
    hide Prepared, Starts, IsBoot, Named, AllCompleted, OnlySelected, Outcome, FirstBoot, RefusingRun, Playable;
    PreparedLength(files, Some("app"), t);
    StartsPlayable(files, Some("app"), false, t);
    RefusingRunSucceeds(files, j);
    RefusingRunFails(files, j);
    NothingFirst(j.t);
    FirstBootFound(false, j.t, 0);
    assert t[0].cmd in FirstBoot(false, j.t) && !FromSelected(j, t[0].cmd);
    UnselectedBootIsSent(files, j);
  }

  lemma NothingFirst(t: seq<Entry>)
    ensures FirstBoot(false, t[..0]) == []
  {
  }

  // ---------------------------------------------------------------------------
  // Runs in which all goes well
  // ---------------------------------------------------------------------------

  lemma AttemptedWhenDone(u: Setup, plan: seq<Command>)
    requires u.payload > 0 && AllSendable(u.files, plan)
    ensures Attempted(u, plan, GoodSteps(u, plan))
    ensures forall i :: 0 <= i < |GoodSteps(u, plan)| ==> Completed(u, GoodSteps(u, plan)[i])
  {
    hide Exchanged, Completed, GoodSteps;
    GoodStepsDone(u, plan);
  }

  /** With every table that a run can start with, and a device that goes along with everything,
      a run succeeds; only the boot loader's file must be there when a part upgrade leaves it
      out. */
  lemma GoodRunExists(files: Directory, part: Option<string>, eraseAll: bool, t: seq<Entry>) returns (log: RunLog)
    requires IsTable(t) && Starts(files, part, t)
    requires forall k :: 0 <= k < |t| && IsBoot(false, t[k]) && !Wanted(part, t[k]) ==>
               FileOf(files, t[k].cmd.program).Some?
    ensures Outcome(files, JobOf(files, part, eraseAll, t), log, true) && AllCompleted(files, log)
  {
    var j := JobOf(files, part, eraseAll, t);
    var u := Setup(files, PAYLOAD);
    StartsPlayable(files, part, eraseAll, t);
    BootSendable(files, part, eraseAll, t);
    hide Follows, Done, Attempted, Completed, GoodSteps, VendorPlan, JobErases, ProgramPlan, FirstBoot, Starts,
         Prepared, Wanted, IsBoot, FileOf;
    Waits();
    log := RunLog(SILENCE + SILENCE, Configuration(OFF, []),
                  GoodSteps(u, FirstBoot(true, j.t)), GoodSteps(u, VendorPlan(j)),
                  GoodSteps(u, JobErases(j)), GoodSteps(u, ProgramPlan(j)), GoodSteps(u, FirstBoot(false, j.t)),
                  GoodSteps(u, [Reset]), SILENCE);
    SilentGreeting();
    AttemptedWhenDone(u, FirstBoot(true, j.t));
    AttemptedWhenDone(u, FirstBoot(false, j.t));
    GoodStepsDone(u, VendorPlan(j));
    GoodStepsDone(u, JobErases(j));
    GoodStepsDone(u, ProgramPlan(j));
    GoodStepsDone(u, [Reset]);
    AttemptedWhenDone(u, VendorPlan(j));
    AttemptedWhenDone(u, JobErases(j));
    AttemptedWhenDone(u, ProgramPlan(j));
    AttemptedWhenDone(u, [Reset]);
    forall i | 0 <= i < |Steps(log)| ensures Completed(u, Steps(log)[i]) {
      assert Steps(log)[i] in log.bootErase || Steps(log)[i] in log.vendors || Steps(log)[i] in log.erases
             || Steps(log)[i] in log.programs || Steps(log)[i] in log.bootProgram || Steps(log)[i] in log.reset;
    }
  }

  lemma SilentGreeting()
    ensures IsGreeting(SILENCE + SILENCE) && IsDrain(SILENCE)
  {
    assert (SILENCE + SILENCE)[1..] == SILENCE;
  }

  lemma BootSendable(files: Directory, part: Option<string>, eraseAll: bool, t: seq<Entry>)
    requires IsTable(t) && Starts(files, part, t)
    requires forall k :: 0 <= k < |t| && IsBoot(false, t[k]) && !Wanted(part, t[k]) ==>
               FileOf(files, t[k].cmd.program).Some?
    ensures var j := JobOf(files, part, eraseAll, t);
            AllSendable(files, FirstBoot(true, j.t)) && AllSendable(files, FirstBoot(false, j.t))
  {
    var after := Prepared(files, part, t);
    FirstBootSound(true, after);
    BootFrom(false, after);
    if FirstBoot(false, after) != [] {
      var x :| 0 <= x < |after| && IsBoot(false, after[x]) && FirstBoot(false, after) == [after[x].cmd];
      hide FirstBoot, NamedAt;
      PreparedKeeps(files, part, t, x);
      if Wanted(part, t[x]) {
        SectorsInTwoSteps(0, t[x].cmd.program.sectorSize);
      }
    }
  }
}
