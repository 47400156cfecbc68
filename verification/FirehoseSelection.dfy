/** What a run sends, said of the table as it was read in: which entries a part upgrade picks,
    in what order, and how the commands look. The predicates here are stated independently of
    the ones that the host and its plan use. */
module FirehoseSelection {
  import opened Arithmetic
  import opened FirehoseCommands
  import opened FirehoseFlash
  import opened FirehoseProtocol
  import opened FirehoseSafety
  import opened Options

  /** A table as it is read in: nothing is marked yet. */
  predicate Unmarked(t: seq<Entry>) { forall k :: 0 <= k < |t| ==> !t[k].upgrade }

  /** A program of the part starts at this sector. The table's file names begin with `../`. */
  predicate PartStartsAt(part: string, t: seq<Entry>, start: uint32)
    requires IsTable(t)
  {
    exists j :: 0 <= j < |t| && t[j].cmd.Program? && t[j].cmd.program.filename[3..] == part
                && t[j].cmd.program.start == start
  }

  predicate ErasedFor(part: Option<string>, t: seq<Entry>, k: nat)
    requires IsTable(t)
  {
    && k < |t| && t[k].cmd.Erase?
    && (part.Some? ==> PartStartsAt(part.value, t, t[k].cmd.erase.start))
  }

  predicate ProgrammedFor(part: Option<string>, t: seq<Entry>, k: nat)
    requires IsTable(t)
  {
    k < |t| && t[k].cmd.Program? && (part.Some? ==> t[k].cmd.program.filename[3..] == part.value)
  }

  predicate AtZero(erase: bool, e: Entry) {
    if erase then e.cmd.Erase? && e.cmd.erase.start == 0 else e.cmd.Program? && e.cmd.program.start == 0
  }

  // ---------------------------------------------------------------------------
  // The prepared table
  // ---------------------------------------------------------------------------

  /** In a part upgrade an erase entry is marked exactly if a program of the part starts where
      it does, or it was marked before; nothing else of it changes. */
  lemma PreparedErase(files: Directory, part: string, t: seq<Entry>, k: nat)
    requires IsTable(t) && k < |t| && t[k].cmd.Erase?
    ensures var e := Prepared(files, Some(part), t)[k];
            && e.cmd == t[k].cmd
            && (e.upgrade <==>
                t[k].upgrade
                || exists j :: 0 <= j < |t| && t[j].cmd.Program? && t[j].cmd.program.filename[3..] == part
                               && t[j].cmd.program.start == t[k].cmd.erase.start)
  {
    var start := t[k].cmd.erase.start;
    if NamedAt(Some(part), t, |t|, start) {
      var j :| 0 <= j < |t| && Named(Some(part), t[j]) && t[j].cmd.program.start == start;
      assert t[j].cmd.program.filename[3..] == part;
    }
    if j :| 0 <= j < |t| && t[j].cmd.Program? && t[j].cmd.program.filename[3..] == part
            && t[j].cmd.program.start == start {
      assert Tabled(t[j]) && Named(Some(part), t[j]);
    }
  }

  /** A program entry is marked exactly if its file is the part's, and only then sized. */
  lemma PreparedProgram(files: Directory, part: string, t: seq<Entry>, k: nat)
    requires IsTable(t) && k < |t| && t[k].cmd.Program?
    ensures var e, p := Prepared(files, Some(part), t)[k], t[k].cmd.program;
            && (e.upgrade <==> p.filename[3..] == part)
            && e.cmd == Program(if p.filename[3..] == part then Sized(files, p) else p)
  {
    assert Tabled(t[k]);
  }

  /** Without a part every program is sized and nothing is marked. */
  lemma PreparedWhole(files: Directory, t: seq<Entry>, k: nat)
    requires IsTable(t) && k < |t|
    ensures var e := Prepared(files, None, t)[k];
            && e.upgrade == t[k].upgrade
            && e.cmd == if t[k].cmd.Program? then Program(Sized(files, t[k].cmd.program)) else t[k].cmd
  {
    assert Tabled(t[k]);
  }

  lemma CeilingIsRoundedUp(size: nat, sectorSize: nat)
    requires sectorSize > 0
    ensures size / sectorSize + (if size % sectorSize != 0 then 1 else 0) == (size + sectorSize - 1) / sectorSize
  {
    var q, r := size / sectorSize, size % sectorSize;
    assert size == sectorSize * q + r;
    if r == 0 {
      ModUnique(size + sectorSize - 1, sectorSize, q, sectorSize - 1);
    } else {
      assert size + sectorSize - 1 == sectorSize * (q + 1) + (r - 1);
      ModUnique(size + sectorSize - 1, sectorSize, q + 1, r - 1);
    }
  }

  /** Backslashes of a file name become slashes and all else stays. */
  lemma UnixNameAt(name: string, i: nat)
    requires i < |name|
    ensures |UnixName(name)| == |name|
    ensures UnixName(name)[i] == if name[i] == '\\' then '/' else name[i]
  {
  }

  /** The file of a command is the one of that name, as it is. */
  lemma FileIs(files: Directory, p: ProgramCmd, name: string)
    requires |name| == |p.filename|
    requires forall i :: 0 <= i < |name| ==> name[i] == if p.filename[i] == '\\' then '/' else p.filename[i]
    ensures FileOf(files, p) == if name in files then Some(files[name]) else None
  {
    assert name == UnixName(p.filename);
  }

  /** A sized command has the length of its file and that many sectors, rounded up, both in
      32 bits; a file that is not there counts as empty. Nothing else of it changes. */
  lemma SizedIs(files: Directory, p: ProgramCmd)
    requires p.sectorSize > 0
    ensures var size := if UnixName(p.filename) in files then |files[UnixName(p.filename)]| else 0;
            Sized(files, p) == p.(filesz := size % 0x1_0000_0000,
                                  sectors := (size + p.sectorSize - 1) / p.sectorSize % 0x1_0000_0000)
  {
    CeilingIsRoundedUp(FileSize(files, p), p.sectorSize);
  }

  /** A run starts at all if the table has entries, and every file that will be sent is there
      and takes a number of sectors that is not 0 in 32 bits. */
  lemma StartsIff(files: Directory, part: Option<string>, t: seq<Entry>)
    requires IsTable(t)
    ensures Starts(files, part, t)
            <==> t != [] && forall k: nat :: ProgrammedFor(part, t, k) ==>
                   var p := t[k].cmd.program;
                   && UnixName(p.filename) in files
                   && (|files[UnixName(p.filename)]| + p.sectorSize - 1) / p.sectorSize % 0x1_0000_0000 != 0
  {
    forall k: nat | ProgrammedFor(part, t, k)
      ensures var p := t[k].cmd.program;
              Sized(files, p).sectors != 0
              <==> && UnixName(p.filename) in files
                   && (|files[UnixName(p.filename)]| + p.sectorSize - 1) / p.sectorSize % 0x1_0000_0000 != 0
    {
      assert Tabled(t[k]);
      SizedIs(files, t[k].cmd.program);
      SectorsInTwoSteps(0, t[k].cmd.program.sectorSize);
    }
    hide Sized, UnixName;
    forall k: nat | k < |t| ensures Wanted(part, t[k]) <==> ProgrammedFor(part, t, k) {
      assert Tabled(t[k]);
    }
  }

  // ---------------------------------------------------------------------------
  // The plan, by positions of the table
  // ---------------------------------------------------------------------------

  predicate Increasing(at: seq<nat>) { forall i, j :: 0 <= i < j < |at| ==> at[i] < at[j] }

  function CommandsAt(t: seq<Entry>, at: seq<nat>): seq<Command>
    requires forall k: nat :: k in at ==> k < |t|
  {
    seq(|at|, i requires 0 <= i < |at| => assert at[i] in at; t[at[i]].cmd)
  }

  lemma {:induction false} PickedPositions(phase: Phase, part: Option<string>, t: seq<Entry>) returns (at: seq<nat>)
    ensures Increasing(at) && forall k: nat :: k in at <==> k < |t| && Chosen(phase, part, t[k])
    ensures CommandsAt(t, at) == Pick(phase, part, t)
  {
    at := [];
    if t != [] {
      hide Chosen;
      var n := |t| - 1;
      var before := PickedPositions(phase, part, t[..n]);
      at := before;
      if Chosen(phase, part, t[n]) {
        at := before + [n];
        assert forall k: nat :: k in at <==> k in before || k == n;
      }
      CommandsAtEnd(t, before, n);
    }
  }

  lemma CommandsAtEnd(t: seq<Entry>, at: seq<nat>, n: nat)
    requires n < |t| && forall k: nat :: k in at ==> k < n
    ensures CommandsAt(t, at) == CommandsAt(t[..n], at)
    ensures CommandsAt(t, at + [n]) == CommandsAt(t[..n], at) + [t[n].cmd]
    ensures Increasing(at) ==> Increasing(at + [n])
  {
    forall i | 0 <= i < |at| ensures CommandsAt(t, at)[i] == CommandsAt(t[..n], at)[i] && at[i] < n {
      assert at[i] in at;
    }
  }

  /** What the main loops choose of a prepared table. */
  lemma ChosenIs(files: Directory, part: Option<string>, t: seq<Entry>, k: nat)
    requires IsTable(t) && Unmarked(t) && k < |t|
    ensures var e := Prepared(files, part, t)[k];
            && (Chosen(Vendors, part, e) <==> t[k].cmd.Vendor?)
            && (Chosen(Erases, part, e) <==> ErasedFor(part, t, k) && t[k].cmd.erase.start != 0)
            && (Chosen(Programs, part, e) <==> ProgrammedFor(part, t, k) && t[k].cmd.program.start != 0)
            && (IsPickedErase(part, e) <==> ErasedFor(part, t, k))
            && (IsBoot(true, e) <==> AtZero(true, t[k])) && (IsBoot(false, e) <==> AtZero(false, t[k]))
            && (!t[k].cmd.Program? ==> e.cmd == t[k].cmd)
  {
    hide Prepared, PreparedEntry, SectorCount;
    if part.None? {
      PreparedWhole(files, t, k);
    } else if t[k].cmd.Erase? {
      PreparedErase(files, part.value, t, k);
    } else if t[k].cmd.Program? {
      PreparedProgram(files, part.value, t, k);
    } else {
      PreparedVendor(files, part, t, k);
    }
  }

  lemma PreparedLength(files: Directory, part: Option<string>, t: seq<Entry>)
    requires IsTable(t)
    ensures |Prepared(files, part, t)| == |t|
  {
  }

  lemma PreparedVendor(files: Directory, part: Option<string>, t: seq<Entry>, k: nat)
    requires IsTable(t) && k < |t| && t[k].cmd.Vendor?
    ensures Prepared(files, part, t)[k] == t[k]
  {
  }

  /** At most one position: the first of an entry that will do. */
  lemma BootPosition(erase: bool, t: seq<Entry>) returns (at: seq<nat>)
    ensures |at| <= 1
    ensures forall k: nat :: k in at <==>
              k < |t| && IsBoot(erase, t[k]) && forall i :: 0 <= i < k ==> !IsBoot(erase, t[i])
    ensures CommandsAt(t, at) == FirstBoot(erase, t)
  {
    hide IsBoot;
    at := [];
    if x :| 0 <= x < |t| && IsBoot(erase, t[x]) {
      var k := FirstIndex(t, e => IsBoot(erase, e), x);
      at := [k];
      BootFrom(erase, t[..k]);
      FirstBootFound(erase, t, k);
    } else {
      BootFrom(erase, t);
    }
  }

  lemma {:induction false} FirstIndex(t: seq<Entry>, p: Entry -> bool, x: nat) returns (k: nat)
    requires x < |t| && p(t[x])
    ensures k <= x && p(t[k]) && forall i :: 0 <= i < k ==> !p(t[i])
  {
    if y :| 0 <= y < x && p(t[y]) {
      k := FirstIndex(t, p, y);
    } else {
      k := x;
    }
  }

  lemma {:induction false} NothingWhole(part: Option<string>, t: seq<Entry>, max: uint32)
    requires forall k :: 0 <= k < |t| ==> !IsPickedErase(part, t[k])
    ensures FirstWhole(part, t, max) == []
  {
    if t != [] {
      NothingWhole(part, t[..|t| - 1], max);
    }
  }

  /** Erasing everything sends the first erase entry that is picked, from sector 0 on and as
      far as any erase of the table reaches. */
  lemma WholePosition(part: Option<string>, t: seq<Entry>, max: uint32) returns (at: seq<nat>)
    ensures |at| <= 1
    ensures forall k: nat :: k in at <==>
              k < |t| && IsPickedErase(part, t[k]) && forall i :: 0 <= i < k ==> !IsPickedErase(part, t[i])
    ensures FirstWhole(part, t, max)
            == if at == [] then []
               else
                 var k := at[0];
                 assert k in at && IsPickedErase(part, t[k]);
                 [Erase(t[k].cmd.erase.(start := 0, sectors := max))]
  {
    at := [];
    if x :| 0 <= x < |t| && IsPickedErase(part, t[x]) {
      var k := FirstIndex(t, e => IsPickedErase(part, e), x);
      at := [k];
      NothingWhole(part, t[..k], max);
      FirstWholeFound(part, t, max, k);
    } else {
      NothingWhole(part, t, max);
    }
  }

  /** How far the erases reach, in 32 bits: no erase entry goes further, and one goes as far,
      unless there is none that reaches beyond 0. */
  lemma {:induction false} EraseEndIsLargest(t: seq<Entry>)
    ensures forall k :: 0 <= k < |t| && t[k].cmd.Erase? ==>
              (t[k].cmd.erase.start + t[k].cmd.erase.sectors) % 0x1_0000_0000 <= EraseEnd(t)
    ensures EraseEnd(t) != 0 ==>
              exists k :: 0 <= k < |t| && t[k].cmd.Erase?
                          && (t[k].cmd.erase.start + t[k].cmd.erase.sectors) % 0x1_0000_0000 == EraseEnd(t)
  {
    if t != [] {
      var n := |t| - 1;
      EraseEndIsLargest(t[..n]);
      assert forall k :: 0 <= k < n ==> t[..n][k] == t[k];
    }
  }

  // ---------------------------------------------------------------------------
  // What goes over the wire
  // ---------------------------------------------------------------------------

  lemma PrefixConcat<T>(a: seq<T>, b: seq<T>, c: seq<T>, d: seq<T>)
    requires a <= b && c <= d && (a == b || c == [])
    ensures a + c <= b + d
  {
  }

  lemma FollowsPrefix(u: Setup, plan: seq<Command>, steps: seq<Step>)
    requires Follows(u, plan, steps) || steps == []
    ensures Commands(steps) <= plan
    ensures Done(u, plan, steps) ==> Commands(steps) == plan
  {
    hide Exchanged, Completed;
  }

  /** The main phases stop where one of them stops. */
  lemma MainIsPrefix(u: Setup, j: Job, log: RunLog)
    requires Phases(u, j, log)
    ensures Commands(MainSteps(log)) <= MainPlan(j)
    ensures MainDone(u, j, log) ==> Commands(MainSteps(log)) == MainPlan(j)
  {
    hide Follows, Done, Attempted, VendorPlan, JobErases, ProgramPlan, Commands;
    var a, b, c := Commands(log.vendors), Commands(log.erases), Commands(log.programs);
    FollowsPrefix(u, VendorPlan(j), log.vendors);
    FollowsPrefix(u, JobErases(j), log.erases);
    FollowsPrefix(u, ProgramPlan(j), log.programs);
    NoCommands();
    CommandsConcat(log.vendors, log.erases);
    CommandsConcat(log.vendors + log.erases, log.programs);
    PrefixConcat(a, VendorPlan(j), b, JobErases(j));
    PrefixConcat(a + b, VendorPlan(j) + JobErases(j), c, ProgramPlan(j));
  }

  lemma LastIsPrefix(u: Setup, j: Job, log: RunLog)
    requires Phases(u, j, log)
    ensures Commands(LastSteps(log)) <= FirstBoot(false, j.t) + [Reset]
    ensures Commands(LastSteps(log)) == [] || MainDone(u, j, log)
  {
    hide Done, MainDone, FirstBoot, Commands;
    NoCommands();
    CommandsConcat(log.bootProgram, log.reset);
    if MainDone(u, j, log) {
      hide Follows, Attempted;
      CommandsAre(u, FirstBoot(false, j.t), log.bootProgram);
      FollowsPrefix(u, [Reset], log.reset);
      PrefixConcat(FirstBoot(false, j.t), FirstBoot(false, j.t), Commands(log.reset), [Reset]);
    }
  }

  lemma PlanInThree(j: Job)
    ensures FullPlan(j) == FirstBoot(true, j.t) + MainPlan(j) + (FirstBoot(false, j.t) + [Reset])
  {
    hide FirstBoot, VendorPlan, JobErases, ProgramPlan;
  }

  lemma StepsInThree(log: RunLog)
    ensures Commands(Steps(log)) == Commands(log.bootErase) + Commands(MainSteps(log)) + Commands(LastSteps(log))
  {
    assert Steps(log) == log.bootErase + MainSteps(log) + LastSteps(log);
    CommandsConcat(log.bootErase + MainSteps(log), LastSteps(log));
    CommandsConcat(log.bootErase, MainSteps(log));
  }

  lemma NoCommands()
    ensures Commands([]) == []
  {
  }

  /** Whatever the device answers, what is sent is the beginning of the full plan. */
  lemma SentIsPrefix(files: Directory, j: Job, log: RunLog, ok: bool)
    requires Outcome(files, j, log, ok)
    ensures Commands(Steps(log)) <= FullPlan(j)
    ensures ok ==> Commands(Steps(log)) == FullPlan(j)
  {
    hide Commands, Steps, FullPlan, FirstBoot, MainPlan, MainSteps, LastSteps, Done, MainDone, Follows;
    if ok {
      PlanOfRun(files, j, log);
    } else if !Configured(log.config) {
      NoCommands();
    } else {
      var u := UnderWay(files, log);
      CommandsAre(u, FirstBoot(true, j.t), log.bootErase);
      MainIsPrefix(u, j, log);
      LastIsPrefix(u, j, log);
      StepsInThree(log);
      PlanInThree(j);
      PrefixConcat(FirstBoot(true, j.t), FirstBoot(true, j.t), Commands(MainSteps(log)), MainPlan(j));
      PrefixConcat(FirstBoot(true, j.t) + Commands(MainSteps(log)), FirstBoot(true, j.t) + MainPlan(j),
                   Commands(LastSteps(log)), FirstBoot(false, j.t) + [Reset]);
    }
  }

  // ---------------------------------------------------------------------------
  // The commands of a run
  // ---------------------------------------------------------------------------

  /** Positions of a table. */
  datatype Positions = Positions(boot: seq<nat>, vendors: seq<nat>, erases: seq<nat>, programs: seq<nat>,
                                 loader: seq<nat>)

  /** The first erase at sector 0; all vendor commands; the other erases at whose sector a
      program of the part starts, or, when everything is erased, the first such erase and
      nothing else; the other programs of the part; the first program at sector 0. Without a
      part, all of the kind. */
  ghost predicate IsDownload(part: Option<string>, eraseAll: bool, t: seq<Entry>, at: Positions)
    requires IsTable(t)
  {
    && |at.boot| <= 1 && Increasing(at.vendors) && Increasing(at.programs) && |at.loader| <= 1
    && (forall k: nat :: k in at.boot <==> k < |t| && FirstZero(true, t, k))
    && (forall k: nat :: k in at.vendors <==> k < |t| && t[k].cmd.Vendor?)
    && AreErases(part, eraseAll, t, at.erases)
    && (forall k: nat :: k in at.programs <==> k < |t| && ProgrammedFor(part, t, k) && t[k].cmd.program.start != 0)
    && (forall k: nat :: k in at.loader <==> k < |t| && FirstZero(false, t, k))
  }

  ghost predicate AreErases(part: Option<string>, eraseAll: bool, t: seq<Entry>, at: seq<nat>)
    requires IsTable(t)
  {
    Increasing(at)
    && forall k: nat :: k in at <==>
         && ErasedFor(part, t, k)
         && if eraseAll then forall i :: 0 <= i < k ==> !ErasedFor(part, t, i) else t[k].cmd.erase.start != 0
  }

  predicate FirstZero(erase: bool, t: seq<Entry>, k: nat) {
    k < |t| && AtZero(erase, t[k]) && forall i :: 0 <= i < k ==> !AtZero(erase, t[i])
  }

  /** From sector 0 on, as far as any erase of the table reaches. */
  function WholeAt(t: seq<Entry>, at: seq<nat>): seq<Command>
    requires forall k: nat :: k in at ==> k < |t| && t[k].cmd.Erase?
  {
    seq(|at|, i requires 0 <= i < |at| =>
      assert at[i] in at; Erase(t[at[i]].cmd.erase.(start := 0, sectors := EraseEnd(t))))
  }

  /** The commands themselves: those of programs are looked up in the prepared table. */
  ghost function CommandsOf(files: Directory, part: Option<string>, eraseAll: bool, t: seq<Entry>, at: Positions)
    : seq<Command>
    requires IsTable(t) && IsDownload(part, eraseAll, t, at)
  {
    CommandsAt(t, at.boot) + CommandsAt(t, at.vendors)
    + (if eraseAll then WholeAt(t, at.erases) else CommandsAt(t, at.erases))
    + CommandsAt(Prepared(files, part, t), at.programs) + CommandsAt(Prepared(files, part, t), at.loader)
    + [Reset]
  }

  lemma ErasePositions(files: Directory, part: Option<string>, eraseAll: bool, t: seq<Entry>) returns (at: seq<nat>)
    requires IsTable(t) && Unmarked(t)
    ensures AreErases(part, eraseAll, t, at)
    ensures JobErases(JobOf(files, part, eraseAll, t)) == if eraseAll then WholeAt(t, at) else CommandsAt(t, at)
  {
    hide Prepared, Pick, FirstWhole, EraseEnd, Chosen, IsBoot, PartStartsAt;
    var after := Prepared(files, part, t);
    PreparedLength(files, part, t);
    forall k | 0 <= k < |t|
      ensures Chosen(Erases, part, after[k]) <==> ErasedFor(part, t, k) && t[k].cmd.erase.start != 0
      ensures IsPickedErase(part, after[k]) <==> ErasedFor(part, t, k)
      ensures t[k].cmd.Erase? ==> after[k].cmd == t[k].cmd
    {
      ChosenIs(files, part, t, k);
    }
    if eraseAll {
      at := WholePosition(part, after, EraseEnd(t));
    } else {
      at := PickedPositions(Erases, part, after);
    }
  }

  lemma BootPositions(files: Directory, part: Option<string>, erase: bool, t: seq<Entry>) returns (at: seq<nat>)
    requires IsTable(t) && Unmarked(t)
    ensures |at| <= 1 && |Prepared(files, part, t)| == |t|
    ensures forall k: nat :: k in at <==> k < |t| && FirstZero(erase, t, k)
    ensures FirstBoot(erase, Prepared(files, part, t))
            == if erase then CommandsAt(t, at) else CommandsAt(Prepared(files, part, t), at)
  {
    hide Prepared, FirstBoot, PartStartsAt, Chosen, IsPickedErase, IsBoot;
    var after := Prepared(files, part, t);
    PreparedLength(files, part, t);
    forall k | 0 <= k < |t|
      ensures IsBoot(erase, after[k]) <==> AtZero(erase, t[k])
      ensures erase && AtZero(erase, t[k]) ==> after[k].cmd == t[k].cmd
    {
      ChosenIs(files, part, t, k);
    }
    at := BootPosition(erase, after);
  }

  /** What a run puts on the wire, whatever the device answers: the configuration, and then the
      beginning of the commands of the download, of which a run that succeeds has sent all. */
  lemma WireOfDownload(files: Directory, part: Option<string>, eraseAll: bool, t: seq<Entry>, log: RunLog, ok: bool)
    returns (at: Positions, sent: seq<Command>)
    requires IsTable(t) && Unmarked(t) && Starts(files, part, t)
    requires Outcome(files, JobOf(files, part, eraseAll, t), log, ok)
    ensures IsDownload(part, eraseAll, t, at)
    ensures Wire(RunEvents(log))
            == [Configure(8192)] + (if Refused(log.config.first) then [Configure(Negotiated(log.config))] else [])
               + sent
    ensures sent <= CommandsOf(files, part, eraseAll, t, at)
    ensures ok ==> sent == CommandsOf(files, part, eraseAll, t, at)
  {
    var j := JobOf(files, part, eraseAll, t);
    sent := Commands(Steps(log));
    WireOfRun(files, j, log, ok);
    SentIsPrefix(files, j, log, ok);
    at := DownloadPositions(files, part, eraseAll, t);
  }

  lemma VendorPositions(files: Directory, part: Option<string>, t: seq<Entry>) returns (at: seq<nat>)
    requires IsTable(t) && Unmarked(t)
    ensures Increasing(at) && forall k: nat :: k in at <==> k < |t| && t[k].cmd.Vendor?
    ensures CommandsAt(t, at) == Pick(Vendors, part, Prepared(files, part, t))
  {
    hide Prepared, Pick, Chosen, ErasedFor, ProgrammedFor, IsPickedErase, IsBoot;
    var after := Prepared(files, part, t);
    PreparedLength(files, part, t);
    forall k | 0 <= k < |t|
      ensures Chosen(Vendors, part, after[k]) <==> t[k].cmd.Vendor?
      ensures t[k].cmd.Vendor? ==> after[k].cmd == t[k].cmd
    {
      ChosenIs(files, part, t, k);
    }
    at := PickedPositions(Vendors, part, after);
  }

  lemma ProgramPositions(files: Directory, part: Option<string>, t: seq<Entry>) returns (at: seq<nat>)
    requires IsTable(t) && Unmarked(t)
    ensures Increasing(at) && |Prepared(files, part, t)| == |t|
    ensures forall k: nat :: k in at <==> k < |t| && ProgrammedFor(part, t, k) && t[k].cmd.program.start != 0
    ensures CommandsAt(Prepared(files, part, t), at) == Pick(Programs, part, Prepared(files, part, t))
  {
    hide Prepared, Pick, Chosen, PartStartsAt, IsPickedErase, IsBoot;
    var after := Prepared(files, part, t);
    PreparedLength(files, part, t);
    forall k | 0 <= k < |t|
      ensures Chosen(Programs, part, after[k]) <==> ProgrammedFor(part, t, k) && t[k].cmd.program.start != 0
    {
      ChosenIs(files, part, t, k);
    }
    at := PickedPositions(Programs, part, after);
  }

  lemma DownloadPositions(files: Directory, part: Option<string>, eraseAll: bool, t: seq<Entry>) returns (at: Positions)
    requires IsTable(t) && Unmarked(t)
    ensures IsDownload(part, eraseAll, t, at)
    ensures CommandsOf(files, part, eraseAll, t, at) == FullPlan(JobOf(files, part, eraseAll, t))
  {
    hide Prepared, Pick, FirstBoot, JobErases, FirstZero, AreErases, ErasedFor, ProgrammedFor, EraseEnd, CommandsAt,
         WholeAt;
    var boot := BootPositions(files, part, true, t);
    var vendors := VendorPositions(files, part, t);
    var erases := ErasePositions(files, part, eraseAll, t);
    var programs := ProgramPositions(files, part, t);
    var loader := BootPositions(files, part, false, t);
    at := Positions(boot, vendors, erases, programs, loader);
  }

  lemma InCommandsAt(t: seq<Entry>, at: seq<nat>, c: Command)
    requires forall k: nat :: k in at ==> k < |t|
    ensures c in CommandsAt(t, at) <==> exists k :: k in at && t[k].cmd == c
  {
    if i :| 0 <= i < |at| && CommandsAt(t, at)[i] == c {
      assert at[i] in at && t[at[i]].cmd == c;
    }
    if k :| k in at && t[k].cmd == c {
      var i :| 0 <= i < |at| && at[i] == k;
      assert CommandsAt(t, at)[i] == c;
    }
  }

  /** In a part upgrade an erase command away from sector 0 goes out only if it is in the table
      and a program of the part starts at its sector; a run that succeeds has sent all these. */
  lemma PartErases(files: Directory, part: string, t: seq<Entry>, log: RunLog, ok: bool, c: EraseCmd)
    requires IsTable(t) && Unmarked(t) && Starts(files, Some(part), t) && c.start != 0
    requires Outcome(files, JobOf(files, Some(part), false, t), log, ok)
    ensures var inTable := exists k :: 0 <= k < |t| && t[k].cmd == Erase(c);
            var ofPart := exists j :: 0 <= j < |t| && t[j].cmd.Program? && t[j].cmd.program.filename[3..] == part
                                      && t[j].cmd.program.start == c.start;
            && (Erase(c) in Wire(RunEvents(log)) ==> inTable && ofPart)
            && (ok && inTable && ofPart ==> Erase(c) in Wire(RunEvents(log)))
  {
    hide Prepared, Outcome, RunEvents, Wire, CommandsOf, IsDownload, JobOf, Negotiated, Refused, Starts, PartStartsAt;
    var at, sent := WireOfDownload(files, Some(part), false, t, log, ok);
    var all := CommandsOf(files, Some(part), false, t, at);
    InPrefix(sent, all, Erase(c));
    ErasesInCommands(files, Some(part), t, at, c);
    PartStarts(part, t, c.start);
  }

  lemma PartStarts(part: string, t: seq<Entry>, start: uint32)
    requires IsTable(t)
    ensures PartStartsAt(part, t, start)
            <==> exists j :: 0 <= j < |t| && t[j].cmd.Program? && t[j].cmd.program.filename[3..] == part
                             && t[j].cmd.program.start == start
  {
  }

  lemma InPrefix<T>(a: seq<T>, b: seq<T>, x: T)
    requires a <= b
    ensures x in a ==> x in b
  {
    assert b == a + b[|a|..];
  }

  lemma ErasesInCommands(files: Directory, part: Option<string>, t: seq<Entry>, at: Positions, c: EraseCmd)
    requires IsTable(t) && Unmarked(t) && IsDownload(part, false, t, at) && c.start != 0
    ensures Erase(c) in CommandsOf(files, part, false, t, at)
            <==> exists k: nat :: ErasedFor(part, t, k) && t[k].cmd == Erase(c)
  {
    OtherCommands(files, part, t, at, c);
    hide Prepared, CommandsAt, PartStartsAt, FirstZero;
    InCommandsAt(t, at.erases, Erase(c));
  }

  lemma OtherCommands(files: Directory, part: Option<string>, t: seq<Entry>, at: Positions, c: EraseCmd)
    requires IsTable(t) && Unmarked(t) && IsDownload(part, false, t, at) && c.start != 0
    ensures Erase(c) !in CommandsAt(t, at.boot) && Erase(c) !in CommandsAt(t, at.vendors)
    ensures |Prepared(files, part, t)| == |t|
    ensures Erase(c) !in CommandsAt(Prepared(files, part, t), at.programs)
    ensures Erase(c) !in CommandsAt(Prepared(files, part, t), at.loader)
  {
    var after := Prepared(files, part, t);
    forall k | 0 <= k < |t| && t[k].cmd.Program? ensures after[k].cmd.Program? {
      ChosenIs(files, part, t, k);
    }
    hide Prepared, CommandsAt, PartStartsAt, AreErases;
    InCommandsAt(t, at.boot, Erase(c));
    InCommandsAt(t, at.vendors, Erase(c));
    InCommandsAt(after, at.programs, Erase(c));
    InCommandsAt(after, at.loader, Erase(c));
  }
}
