/** The download of a package by `firehose_main`, one table of commands worked through in
    place. Each method says which exchanges with the device it has made and in which order. */
module FirehoseHost {
  import opened Bytes
  import opened FirehoseCommands
  import opened FirehoseInputs
  import opened FirehoseProtocol
  import opened Options
  import opened Sequences

  class Host {
    const files: Directory
    const part: Option<string>   // g_part_upgrade
    const eraseAll: bool         // q_erase_all_before_download
    const table: array<Entry>    // fh_cmd_table, up to fh_cmd_count
    var payload: uint32          // MaxPayloadSizeToTargetInBytes
    var replies: seq<Reply>      // what the device will still say
    var writes: seq<bool>        // whether the next chunks will be written whole
    var trace: seq<Event>
    ghost const start: Inputs    // all replies and writes there ever were

    /** What has happened so far is what the inputs have brought. */
    ghost predicate Fed()
      reads this`replies, this`writes, this`trace
    {
      OffersAll(start, trace) && AfterAll(start, trace) == Inputs(replies, writes)
    }

    ghost predicate Valid()
      reads table
    {
      IsTable(table[..])
    }

    ghost function Now(): Setup
      reads this
    {
      Setup(files, payload)
    }

    constructor (files: Directory, part: Option<string>, eraseAll: bool, table: array<Entry>,
                 replies: seq<Reply>, writes: seq<bool>)
      ensures this.files == files && this.part == part && this.eraseAll == eraseAll && this.table == table
      ensures this.replies == replies && this.writes == writes && trace == []
      ensures start == Inputs(replies, writes) && Fed()
    {
      this.files, this.part, this.eraseAll, this.table := files, part, eraseAll, table;
      this.payload, this.replies, this.writes, this.trace := 0, replies, writes, [];
      start := Inputs(replies, writes);
    }

    method Send(cmd: Command)
      requires Fed()
      modifies this`trace
      ensures trace == old(trace) + [Sent(cmd)]
      ensures Fed()
    {
      hide OffersAll, AfterAll;
      OffersSnoc(start, trace, Sent(cmd));
      trace := trace + [Sent(cmd)];
    }

    /** `fh_recv_cmd` */
    method RecvCmd() returns (r: Reply)
      requires Fed()
      modifies this`replies, this`trace
      ensures trace == old(trace) + [Got(r)]
      ensures |replies| <= |old(replies)| && (r != Failure ==> |replies| < |old(replies)|)
      ensures Fed()
    {
      hide OffersAll, AfterAll;
      if replies == [] {
        r := Failure;
      } else {
        r, replies := replies[0], replies[1..];
      }
      OffersSnoc(start, trace, Got(r));
      trace := trace + [Got(r)];
    }

    /** `fh_wait_response_cmd` */
    method WaitResponseCmd() returns (r: Reply, ghost w: seq<Event>)
      requires Fed()
      modifies this`replies, this`trace
      ensures IsWait(w) && r == Verdict(w) && trace == old(trace) + w
      ensures Fed()
    {
      hide Fed;
      w := [];
      r := RecvCmd();
      while r.Log?
        invariant Fed()
        invariant forall i :: 0 <= i < |w| ==> w[i] == Got(Log)
        invariant trace == old(trace) + (w + [Got(r)])
        decreases |replies|, r.Log?
      {
        w := w + [Got(r)];
        r := RecvCmd();
      }
      w := w + [Got(r)];
    }

    /** Receives until nothing comes any more. */
    method Drain() returns (ghost w: seq<Event>)
      requires Fed()
      modifies this`replies, this`trace
      ensures IsDrain(w) && trace == old(trace) + w
      ensures Fed()
    {
      hide Fed;
      w := [];
      var r := RecvCmd();
      w := w + [Got(r)];
      while r != Failure
        invariant Fed()
        invariant w != [] && OnlyGot(w) && w[|w| - 1] == Got(r) && trace == old(trace) + w
        invariant forall i :: 0 <= i < |w| - 1 ==> w[i] != Got(Failure)
        decreases |replies|, r != Failure
      {
        r := RecvCmd();
        w := w + [Got(r)];
      }
    }

    /** `fh_send_cfg_cmd`: a refusal that names a payload size is answered with that size, once. */
    method SendCfgCmd() returns (ok: bool, ghost c: Configuration)
      requires Fed()
      modifies this`replies, this`trace, this`payload
      ensures IsConfiguration(c) && trace == old(trace) + ConfigurationEvents(c)
      ensures ok == Configured(c) && (ok ==> payload == Negotiated(c))
      ensures Fed()
    {
      hide Fed;
      var offer: uint32 := PAYLOAD;
      Send(Configure(offer));
      ghost var first, again;
      var r;
      r, first := WaitResponseCmd();
      c := Configuration(first, []);
      if r == Failure {
        return false, c;
      }
      if r.value == Nak && r.maxPayload != 0 {
        offer := r.maxPayload;
        Send(Configure(offer));
        r, again := WaitResponseCmd();
        c := Configuration(first, again);
        if r == Failure {
          return false, c;
        }
      }
      if r.value != Ack {
        return false, c;
      }
      payload := offer;
      return true, c;
    }

    /** A command that the device only has to acknowledge. */
    method SendAcknowledged(cmd: Command) returns (ok: bool, ghost s: Step)
      requires !cmd.Program? && !cmd.Reset? && payload > 0 && Fed()
      modifies this`replies, this`trace
      ensures s.cmd == cmd && Exchanged(Now(), s) && trace == old(trace) + Events(s)
      ensures ok == Completed(Now(), s)
      ensures Fed()
    {
      hide Fed;
      Send(cmd);
      ghost var w;
      var r;
      r, w := WaitResponseCmd();
      s := Step(cmd, w, [], []);
      ok := r != Failure && r.value == Ack;
    }

    /** One `qusb_noblock_write` of a chunk. */
    method WriteChunk(data: seq<byte>) returns (whole: bool)
      requires Fed()
      modifies this`writes, this`trace
      ensures trace == old(trace) + [Chunk(data, whole)]
      ensures Fed()
    {
      hide OffersAll, AfterAll;
      whole := writes != [] && writes[0];
      OffersSnoc(start, trace, Chunk(data, whole));
      writes := if writes == [] then [] else writes[1..];
      trace := trace + [Chunk(data, whole)];
    }

    /** `fh_send_rawmode_image` */
    method SendRawmodeImage(p: ProgramCmd) returns (ok: bool, ghost image: seq<Event>)
      requires payload > 0 && p.sectorSize > 0 && Fed()
      modifies this`writes, this`trace
      ensures trace == old(trace) + image
      ensures if ok then ImageDone(Now(), p, image) else ImageBroken(Now(), p, image)
      ensures Fed()
    {
      hide Fed, Delivered, Pad, ReadAt, FileOf, Chunks, ImageDone, ImageBroken, ImageChunks;
      image := [];
      var fp := FileOf(files, p);
      if fp.None? {
        ImageMissing(Now(), p);
        return false, image;
      }
      ImageStarts(Now(), p);
      var file := fp.value;
      var filesize, filesend, pos := |file|, 0, 0;
      ghost var done: seq<seq<byte>> := [];
      DeliveredNone();
      while filesend < filesize
        invariant Fed()
        invariant pos <= filesend && pos <= |file|
        invariant done + Chunks(file, pos, filesend, payload, p.sectorSize) == ImageChunks(Now(), p)
        invariant image == Delivered(done) && trace == old(trace) + image
        decreases |file| - pos
      {
        ghost var rest := Chunks(file, pos, filesend, payload, p.sectorSize);
        NextChunk(file, pos, filesend, payload, p.sectorSize);
        var pbuf := ReadAt(file, pos, payload);
        var len := ReadLength(file, pos, payload);
        pos := pos + len;
        pbuf, len := PadChunk(pbuf, p.sectorSize);
        var whole := WriteChunk(pbuf);
        DeliveredOneMore(done, rest, image, pbuf, whole);
        Assoc(old(trace), image, [Chunk(pbuf, whole)]);
        image := image + [Chunk(pbuf, whole)];
        if !whole {
          ImageBreaks(Now(), p, done, rest, pbuf);
          return false, image;
        }
        done := done + [pbuf];
        filesend := filesend + len;
      }
      NoMoreChunks(file, pos, filesend, payload, p.sectorSize);
      ImageEnds(Now(), p, done);
      return true, image;
    }

    /** The program exchange: command, raw mode on, image, raw mode off. */
    method SendProgram(p: ProgramCmd) returns (ok: bool, ghost s: Step)
      requires payload > 0 && p.sectorSize > 0 && Fed()
      modifies this`replies, this`writes, this`trace
      ensures s.cmd == Program(p) && Exchanged(Now(), s) && trace == old(trace) + Events(s)
      ensures ok == Completed(Now(), s)
      ensures Fed()
    {
      hide Fed, ImageDone, ImageBroken;
      ghost var first, image, second;
      var r, sent;
      Send(Program(p));
      r, first := WaitResponseCmd();
      s := Step(Program(p), first, [], []);
      if r == Failure || r.value != Ack || !r.rawmode {
        return false, s;
      }
      sent, image := SendRawmodeImage(p);
      s := Step(Program(p), first, image, []);
      if !sent {
        ImageNotDone(Now(), p, image);
        return false, s;
      }
      r, second := WaitResponseCmd();
      s := Step(Program(p), first, image, second);
      if r == Failure || r.value != Ack || r.rawmode {
        return false, s;
      }
      return true, s;
    }

    /** `fh_process_sbl`: the first erase or program command at sector 0, if there is one. */
    method ProcessSbl(erase: bool) returns (ok: bool, ghost steps: seq<Step>)
      requires payload > 0 && Valid() && Fed()
      modifies this`replies, this`writes, this`trace
      ensures Attempted(Now(), FirstBoot(erase, table[..]), steps) && trace == old(trace) + Flatten(steps)
      ensures ok == Done(Now(), FirstBoot(erase, table[..]), steps)
      ensures Fed()
    {
      hide Fed, Exchanged, Completed, Events, Flatten;
      FlattenNil();
      steps := [];
      ghost var s;
      for x := 0 to table.Length
        invariant Fed()
        invariant FirstBoot(erase, table[..x]) == []
        invariant trace == old(trace) && steps == []
      {
        assert table[..x + 1][..x] == table[..x];
        if IsBoot(erase, table[x]) {
          FirstBootFound(erase, table[..], x);
          if erase {
            ok, s := SendAcknowledged(table[x].cmd);
          } else {
            ok, s := SendProgram(table[x].cmd.program);
          }
          steps := [s];
          FlattenSnoc([], s);
          assert [] + [s] == steps && steps[0] == s;
          return;
        }
      }
      assert table[..table.Length] == table[..];
      return true, steps;
    }

    method SendVendors() returns (ok: bool, ghost steps: seq<Step>)
      requires payload > 0 && Valid() && Fed()
      modifies this`replies, this`trace
      ensures Follows(Now(), Pick(Vendors, part, table[..]), steps) && trace == old(trace) + Flatten(steps)
      ensures ok == Done(Now(), Pick(Vendors, part, table[..]), steps)
      ensures Fed()
    {
      hide Fed, Exchanged, Completed, Events, Flatten, Follows, Done, Pick;
      FlattenNil();
      steps := [];
      NothingYet(Now());
      NothingPlanned(Vendors, part);
      for x := 0 to table.Length
        invariant Fed()
        invariant Follows(Now(), Pick(Vendors, part, table[..x]), steps)
                  && Done(Now(), Pick(Vendors, part, table[..x]), steps)
        invariant trace == old(trace) + Flatten(steps)
      {
        PickOneMore(Vendors, part, table[..], x);
        if table[x].cmd.Vendor? {
          ghost var s;
          ok, s := SendAcknowledged(table[x].cmd);
          OneMoreStep(Now(), Pick(Vendors, part, table[..x]), steps, s, old(trace));
          steps := steps + [s];
          if !ok {
            EarlyEnd(Now(), Vendors, part, table[..], x + 1, steps);
            return;
          }
        }
      }
      assert table[..table.Length] == table[..];
      return true, steps;
    }

    /** Widens one erase command to all sectors, in the table, and sends it. */
    method SendWholeErase(x: nat, max: uint32) returns (ok: bool, ghost steps: seq<Step>)
      requires payload > 0 && Valid() && x < table.Length && table[x].cmd.Erase? && Fed()
      modifies this`replies, this`trace, table
      ensures Valid() && SamePrograms(old(table[..]), table[..])
      ensures Follows(Now(), [Whole(old(table[x]).cmd, max)], steps) && trace == old(trace) + Flatten(steps)
      ensures ok == Done(Now(), [Whole(old(table[x]).cmd, max)], steps)
      ensures Fed()
    {
      hide Fed, Exchanged, Completed, Events, Flatten, Follows, Done;
      ghost var s;
      table[x] := table[x].(cmd := Whole(table[x].cmd, max));
      ok, s := SendAcknowledged(table[x].cmd);
      NothingYet(Now());
      FlattenNil();
      OneMoreStep(Now(), [], [], s, old(trace));
      assert [] + [s] == [s] && [] + [s.cmd] == [s.cmd];
      steps := [s];
    }

    /** The selected erases but the boot loader's, or one erase of everything. */
    method SendErases(max: uint32) returns (ok: bool, ghost steps: seq<Step>)
      requires payload > 0 && Valid() && Fed()
      modifies this`replies, this`trace, table
      ensures Valid() && SamePrograms(old(table[..]), table[..])
      ensures Follows(Now(), ErasePlan(part, eraseAll, old(table[..]), max), steps)
              && trace == old(trace) + Flatten(steps)
      ensures ok == Done(Now(), ErasePlan(part, eraseAll, old(table[..]), max), steps)
      ensures Fed()
    {
      hide Fed, Exchanged, Completed, Events, Flatten, Follows, Done, Pick, Whole;
      FlattenNil();
      steps := [];
      ghost var t := table[..];
      NothingYet(Now());
      NothingPlanned(Erases, part);
      for x := 0 to table.Length
        invariant Fed()
        invariant table[..] == t
        invariant eraseAll ==> FirstWhole(part, t[..x], max) == [] && steps == []
        invariant !eraseAll ==> Follows(Now(), Pick(Erases, part, t[..x]), steps)
        invariant !eraseAll ==> Done(Now(), Pick(Erases, part, t[..x]), steps)
        invariant trace == old(trace) + Flatten(steps)
      {
        assert table[x] == t[x] && t[..x + 1][..x] == t[..x];
        PickOneMore(Erases, part, t, x);
        if table[x].cmd.Erase? {
          if part.Some? && !table[x].upgrade {
            continue;
          }
          if eraseAll {
            FirstWholeFound(part, t, max, x);
            ok, steps := SendWholeErase(x, max);
            return;
          } else if table[x].cmd.erase.start == 0 {
            continue;
          }
          ghost var s;
          ok, s := SendAcknowledged(table[x].cmd);
          OneMoreStep(Now(), Pick(Erases, part, t[..x]), steps, s, old(trace));
          steps := steps + [s];
          if !ok {
            EarlyEnd(Now(), Erases, part, t, x + 1, steps);
            return;
          }
        }
      }
      assert t[..table.Length] == t;
      return true, steps;
    }

    method SendPrograms() returns (ok: bool, ghost steps: seq<Step>)
      requires payload > 0 && Valid() && Fed()
      modifies this`replies, this`writes, this`trace
      ensures Follows(Now(), Pick(Programs, part, table[..]), steps) && trace == old(trace) + Flatten(steps)
      ensures ok == Done(Now(), Pick(Programs, part, table[..]), steps)
      ensures Fed()
    {
      hide Fed, Exchanged, Completed, Events, Flatten, Follows, Done, Pick;
      FlattenNil();
      steps := [];
      NothingYet(Now());
      NothingPlanned(Programs, part);
      for x := 0 to table.Length
        invariant Fed()
        invariant Follows(Now(), Pick(Programs, part, table[..x]), steps)
                  && Done(Now(), Pick(Programs, part, table[..x]), steps)
        invariant trace == old(trace) + Flatten(steps)
      {
        PickOneMore(Programs, part, table[..], x);
        if table[x].cmd.Program? {
          if part.Some? && !table[x].upgrade {
            continue;
          }
          if table[x].cmd.program.start == 0 {
            continue;
          }
          ghost var s;
          ok, s := SendProgram(table[x].cmd.program);
          OneMoreStep(Now(), Pick(Programs, part, table[..x]), steps, s, old(trace));
          steps := steps + [s];
          if !ok {
            EarlyEnd(Now(), Programs, part, table[..], x + 1, steps);
            return;
          }
        }
      }
      assert table[..table.Length] == table[..];
      return true, steps;
    }

    method SendReset() returns (ok: bool, ghost steps: seq<Step>)
      requires payload > 0 && Fed()
      modifies this`replies, this`trace
      ensures Follows(Now(), [Reset], steps) && trace == old(trace) + Flatten(steps)
      ensures ok == Done(Now(), [Reset], steps)
      ensures Fed()
    {
      hide Fed, Flatten, Follows, Done;
      Send(Reset);
      ghost var w;
      var r;
      r, w := WaitResponseCmd();
      ghost var s := Step(Reset, w, [], []);
      ok, steps := r != Failure, [s];
      NothingYet(Now());
      FlattenNil();
      OneMoreStep(Now(), [], [], s, old(trace));
      assert [] + [s] == [s] && [] + [s.cmd] == [Reset];
    }

    /** `fh_fixup_program_cmd` */
    method FixupProgramCmd(x: nat)
      requires x < table.Length && table[x].cmd.Program? && table[x].cmd.program.sectorSize > 0
      modifies table
      ensures forall k :: 0 <= k < table.Length && k != x ==> table[k] == old(table[k])
      ensures table[x].cmd.Program? && table[x].upgrade == old(table[x].upgrade)
      ensures var sized := Sized(files, old(table[x].cmd.program));
              table[x].cmd.program.sectors == sized.sectors && (sized.sectors != 0 ==> table[x].cmd.program == sized)
    {
      var p := table[x].cmd.program;
      var fp := FileOf(files, p);
      if fp.None? {
        SectorsInTwoSteps(0, p.sectorSize);
        table[x] := table[x].(cmd := Program(p.(sectors := 0)));
        return;
      }
      var filesize := |fp.value|;
      SectorsInTwoSteps(filesize, p.sectorSize);
      if filesize == 0 {
        table[x] := table[x].(cmd := Program(p.(sectors := 0, filesz := 0)));
        return;
      }
      p := p.(filesz := filesize % TWO_32, sectors := filesize / p.sectorSize % TWO_32);
      if filesize % p.sectorSize != 0 {
        p := p.(sectors := (p.sectors + 1) % TWO_32);
      }
      table[x] := table[x].(cmd := Program(p));
    }

    /** Marks the erase commands that start where a named program does. */
    method MarkErases(start: uint32)
      modifies table
      ensures forall k :: 0 <= k < table.Length ==>
                table[k] == if old(table[k]).cmd.Erase? && old(table[k]).cmd.erase.start == start
                            then old(table[k]).(upgrade := true) else old(table[k])
    {
      ghost var t := table[..];
      for e := 0 to table.Length
        invariant forall k :: 0 <= k < table.Length ==>
                    table[k] == if k < e && t[k].cmd.Erase? && t[k].cmd.erase.start == start
                                then t[k].(upgrade := true) else t[k]
      {
        if table[e].cmd.Erase? && table[e].cmd.erase.start == start {
          table[e] := table[e].(upgrade := true);
        }
      }
    }

    /** The first pass over the table: selection, sizes, and how far the erases reach. */
    method Prepare() returns (ok: bool, max: uint32)
      requires Valid()
      modifies table
      ensures ok == Prepares(files, part, old(table[..]))
      ensures ok ==> Valid() && table[..] == Prepared(files, part, old(table[..])) && max == EraseEnd(old(table[..]))
    {
      hide SectorCount, FileSize, FileOf, NamedAt;
      max := 0;
      ghost var t := table[..];
      NothingPrepared(files, part, t);
      for x := 0 to table.Length
        invariant forall k :: 0 <= k < |t| ==> table[k] == PreparedEntry(files, part, t, x, k)
        invariant forall k :: 0 <= k < x && Wanted(part, t[k]) ==> Sized(files, t[k].cmd.program).sectors != 0
        invariant max == EraseEnd(t[..x])
      {
        assert t[..x + 1][..x] == t[..x] && t[..x + 1][x] == t[x];
        forall k | 0 <= k < |t| && t[k].cmd.Erase?
          ensures NamedAt(part, t, x + 1, t[k].cmd.erase.start)
                  == (NamedAt(part, t, x, t[k].cmd.erase.start)
                      || (Named(part, t[x]) && t[x].cmd.program.start == t[k].cmd.erase.start))
        {
          NamedAtOneMore(part, t, x, t[k].cmd.erase.start);
        }
        if table[x].cmd.Program? {
          if part.Some? {
            table[x] := table[x].(upgrade := table[x].cmd.program.filename[3..] == part.value);
            if table[x].upgrade {
              MarkErases(table[x].cmd.program.start);
            } else {
              continue;
            }
          }
          FixupProgramCmd(x);
          if table[x].cmd.program.sectors == 0 {
            return false, max;
          }
        } else if table[x].cmd.Erase? {
          if (table[x].cmd.erase.sectors + table[x].cmd.erase.start) % TWO_32 > max {
            max := (table[x].cmd.erase.sectors + table[x].cmd.erase.start) % TWO_32;
          }
        }
      }
      assert t[..table.Length] == t;
      ok := true;
      assert table[..] == Prepared(files, part, t);
    }

    /** Everything after the configuration, up to the reset. */
    method RunPhases(max: uint32, ghost config: Configuration) returns (ok: bool, ghost log: RunLog)
      requires payload > 0 && Valid() && Fed()
      modifies this`replies, this`writes, this`trace, table
      ensures log.greeting == [] && log.config == config && log.drain == []
      ensures trace == old(trace) + Flatten(Steps(log))
      ensures var j := Job(part, eraseAll, old(table[..]), max);
              Phases(Now(), j, log) && (ok <==> MainDone(Now(), j, log) && Done(Now(), [Reset], log.reset))
      ensures Fed()
    {
      hide Fed, Follows, Done, Attempted, Pick, FirstBoot, FirstWhole, Flatten;
      ghost var t := table[..];
      ghost var be, ve, er, pr, bp, re: seq<Step> := [], [], [], [], [], [];
      ghost var t0 := trace;
      FlattenNil();
      var ignored;
      ignored, be := ProcessSbl(true);
      ok, ve := SendVendors();
      if ok {
        ok, er := SendErases(max);
        SameProgramPlan(part, t, table[..]);
        if ok {
          ok, pr := SendPrograms();
          if ok {
            ignored, bp := ProcessSbl(false);
            ok, re := SendReset();
          }
        }
      }
      log := RunLog([], config, be, ve, er, pr, bp, re, []);
      FlattenSix(be, ve, er, pr, bp, re);
      AssocSeven(t0, Flatten(be), Flatten(ve), Flatten(er), Flatten(pr), Flatten(bp), Flatten(re));
    }

    /** The device's first words: one answer, and then whatever else it has to say. */
    method Greet() returns (ghost w: seq<Event>)
      requires Fed()
      modifies this`replies, this`trace
      ensures IsGreeting(w) && trace == old(trace) + w
      ensures Fed()
    {
      hide Fed;
      var r := RecvCmd();
      ghost var rest := Drain();
      assert old(trace) + [Got(r)] + rest == old(trace) + ([Got(r)] + rest);
      w := [Got(r)] + rest;
      assert w[1..] == rest;
    }

    /** `firehose_main`, for a table already read in. */
    method FirehoseMain() returns (ok: bool, ghost log: RunLog)
      requires Valid() && Fed()
      modifies this`payload, this`replies, this`writes, this`trace, table
      ensures !Starts(files, part, old(table[..])) ==> !ok && trace == old(trace)
      ensures Starts(files, part, old(table[..])) ==>
                && trace == old(trace) + RunEvents(log)
                && Outcome(files, JobOf(files, part, eraseAll, old(table[..])), log, ok)
      ensures Fed()
    {
      hide Fed, Phases, MainDone, Done, Flatten, ConfigurationEvents, IsGreeting, IsDrain, Prepares, Prepared,
           IsConfiguration, Configured;
      ghost var t := table[..];
      log := RunLog([], Configuration([], []), [], [], [], [], [], [], []);
      if table.Length == 0 {
        return false, log;
      }
      var max;
      ok, max := Prepare();
      if !ok {
        return false, log;
      }
      ghost var greeting, config, drain;
      drain := [];
      greeting := Greet();
      ok, config := SendCfgCmd();
      log := RunLog(greeting, config, [], [], [], [], [], [], []);
      if !ok {
        FlattenNil();
        assert Steps(log) == [];
        AssocFour(old(trace), greeting, ConfigurationEvents(config), [], []);
        return false, log;
      }
      ok, log := RunPhases(max, config);
      ghost var steps := Flatten(Steps(log));
      if ok {
        drain := Drain();
      }
      PhasesOfSteps(Now(), JobOf(files, part, eraseAll, t), log, greeting, drain);
      log := log.(greeting := greeting, drain := drain);
      AssocFour(old(trace), greeting, ConfigurationEvents(config), steps, drain);
    }
  }

  /** Every log that `Outcome` allows is that of a run: the replies and writes that it records
      bring about this very run, with this result. */
  method RunOf(files: Directory, part: Option<string>, eraseAll: bool, table: array<Entry>, log: RunLog,
               ghost result: bool)
    returns (host: Host, ok: bool)
    requires IsTable(table[..]) && Starts(files, part, table[..])
    requires Outcome(files, JobOf(files, part, eraseAll, table[..]), log, result)
    modifies table
    ensures host.trace == RunEvents(log) && ok == result
  {
    hide *;
    ghost var j := JobOf(files, part, eraseAll, table[..]);
    var events := RunEvents(log);
    host := new Host(files, part, eraseAll, table, Replies(events), Writes(events));
    ghost var found;
    ValidTable(host);
    ok, found := host.FirehoseMain();
    InputsFor(events, Inputs([], []));
    assert Replies(events) + [] == Replies(events) && Writes(events) + [] == Writes(events);
    assert [] + RunEvents(found) == RunEvents(found);
    IsFed(host);
    SameRun(host.start, files, j, log, result, found, ok);
  }

  lemma ValidTable(host: Host)
    requires IsTable(host.table[..])
    ensures host.Valid()
  {
  }

  lemma IsFed(host: Host)
    requires host.Fed()
    ensures OffersAll(host.start, host.trace)
  {
  }
}
