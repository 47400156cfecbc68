/** What ends up in the flash of a device that goes along with everything.

    The device is an independent machine that reads the wire: it erases sectors, and in raw
    mode takes in a stream of bytes that it stores sector by sector when raw mode ends. */
module FirehoseFlash {
  import opened Arithmetic
  import opened Bytes
  import opened FirehoseCommands
  import opened FirehoseProtocol
  import opened FirehoseSafety
  import opened Options
  import opened Sequences

  // ---------------------------------------------------------------------------
  // The device
  // ---------------------------------------------------------------------------

  /** What a sector of a physical partition holds; nothing when it is erased. */
  type Flash = (nat, nat) -> Option<seq<byte>>

  datatype Raw = Idle | Receiving(p: ProgramCmd, received: seq<byte>)

  datatype Device = Device(flash: Flash, raw: Raw)

  predicate Within(partition: nat, start: nat, sectors: nat, p: nat, s: nat) {
    p == partition && start <= s < start + sectors
  }

  function Erased(flash: Flash, e: EraseCmd): Flash {
    (p: nat, s: nat) => if Within(e.partition, e.start, e.sectors, p, s) then None else flash(p, s)
  }

  /** Sector `s` of a stream of bytes; empty when the stream does not reach that far. */
  function Slice(stream: seq<byte>, size: nat, s: nat): seq<byte> {
    if (s + 1) * size <= |stream| then assert s * size <= (s + 1) * size; stream[s * size..(s + 1) * size] else []
  }

  function SectorAfter(flash: Flash, c: ProgramCmd, stream: seq<byte>, p: nat, s: nat): Option<seq<byte>> {
    if Within(c.partition, c.start, c.sectors, p, s) then Some(Slice(stream, c.sectorSize, s - c.start))
    else flash(p, s)
  }

  function Programmed(flash: Flash, c: ProgramCmd, stream: seq<byte>): Flash {
    (p: nat, s: nat) => SectorAfter(flash, c, stream, p, s)
  }

  function Receive(d: Device, e: Event): Device {
    match e
    case Sent(Erase(erase)) => Device(Erased(d.flash, erase), d.raw)
    case Sent(Program(p)) => Device(d.flash, Receiving(p, []))
    case Sent(_) => d
    case Chunk(data, ok) =>
      if ok && d.raw.Receiving? then Device(d.flash, Receiving(d.raw.p, d.raw.received + data)) else d
    case Got(reply) =>
      if d.raw.Receiving? && reply.Response? && reply.value == Ack && !reply.rawmode then
        Device(Programmed(d.flash, d.raw.p, d.raw.received), Idle)
      else d
  }

  function Play(d: Device, events: seq<Event>): Device {
    if events == [] then d else Receive(Play(d, events[..|events| - 1]), events[|events| - 1])
  }

  lemma {:induction false} PlayConcat(d: Device, a: seq<Event>, b: seq<Event>)
    ensures Play(d, a + b) == Play(Play(d, a), b)
  {
    if b == [] {
      assert a + b == a;
    } else {
      hide Receive;
      PlayConcat(d, a, b[..|b| - 1]);
      assert (a + b)[..|a + b| - 1] == a + b[..|b| - 1];
    }
  }

  // ---------------------------------------------------------------------------
  // The stream of an image
  // ---------------------------------------------------------------------------

  /** Whether a file of that size keeps its shape when it is padded chunk by chunk. */
  predicate FitsChunks(size: nat, payload: nat, sectorSize: nat)
    requires sectorSize > 0
  {
    Aligned(payload, sectorSize) || size <= payload
  }

  predicate Aligned(n: nat, sectorSize: nat)
    requires sectorSize > 0
  {
    n % sectorSize == 0
  }

  /** Padding the rest of a file is padding the file, after whole sectors. */
  lemma PadRest(file: seq<byte>, n: nat, sectorSize: nat)
    requires sectorSize > 0 && n <= |file| && Aligned(n, sectorSize)
    ensures file[..n] + Pad(file[n..], sectorSize) == Pad(file, sectorSize)
  {
    ModSub(|file|, n, sectorSize);
  }

  lemma FirstChunk(file: seq<byte>, pos: nat, payload: nat, sectorSize: nat)
    requires payload > 0 && sectorSize > 0 && pos < |file|
    ensures var data := ReadAt(file, pos, payload);
            var chunk := Pad(data, sectorSize);
            Concat(Chunks(file, pos, pos, payload, sectorSize))
            == chunk + Concat(Chunks(file, pos + |data|, pos + |chunk|, payload, sectorSize))
  {
    hide ReadAt;
    var data := ReadAt(file, pos, payload);
    var chunk := Pad(data, sectorSize);
    var rest := Chunks(file, pos + |data|, pos + |chunk|, payload, sectorSize);
    assert ([chunk] + rest)[1..] == rest;
  }

  lemma PadNothing(sectorSize: nat)
    requires sectorSize > 0
    ensures Pad([], sectorSize) == []
  {
  }

  lemma WholeChunk(file: seq<byte>, pos: nat, payload: nat, sectorSize: nat)
    requires sectorSize > 0 && Aligned(payload, sectorSize) && pos + payload <= |file|
    ensures var data := ReadAt(file, pos, payload);
            Pad(data, sectorSize) == data && |data| == payload
            && data == file[pos..][..payload] && file[pos..][payload..] == file[pos + payload..]
  {
  }

  lemma NoChunksAfter(file: seq<byte>, pos: nat, sent: nat, payload: nat, sectorSize: nat)
    requires payload > 0 && sectorSize > 0 && |file| <= sent && pos <= sent
    ensures Concat(Chunks(file, pos, sent, payload, sectorSize)) == []
  {
  }

  lemma LastChunk(file: seq<byte>, pos: nat, payload: nat, sectorSize: nat)
    requires payload > 0 && sectorSize > 0 && pos < |file| <= pos + payload
    ensures Concat(Chunks(file, pos, pos, payload, sectorSize)) == Pad(file[pos..], sectorSize)
  {
    hide Concat, Chunks;
    FirstChunk(file, pos, payload, sectorSize);
    assert ReadAt(file, pos, payload) == file[pos..];
    var chunk := Pad(file[pos..], sectorSize);
    NoChunksAfter(file, |file|, pos + |chunk|, payload, sectorSize);
    assert chunk + [] == chunk;
  }

  lemma {:induction false} ChunksFromHere(file: seq<byte>, pos: nat, payload: nat, sectorSize: nat)
    requires payload > 0 && sectorSize > 0 && Aligned(payload, sectorSize) && pos <= |file|
    ensures Concat(Chunks(file, pos, pos, payload, sectorSize)) == Pad(file[pos..], sectorSize)
    decreases |file| - pos
  {
    hide Concat, Chunks, Pad, ReadAt, Aligned;
    if pos == |file| {
      NoChunksAfter(file, pos, pos, payload, sectorSize);
      assert file[pos..] == [];
      PadNothing(sectorSize);
    } else if |file| <= pos + payload {
      LastChunk(file, pos, payload, sectorSize);
    } else {
      FirstChunk(file, pos, payload, sectorSize);
      WholeChunk(file, pos, payload, sectorSize);
      ChunksFromHere(file, pos + payload, payload, sectorSize);
      PadRest(file[pos..], payload, sectorSize);
    }
  }

  /** Files that fit arrive as the file padded once, at its end. */
  lemma StreamIsPadded(file: seq<byte>, payload: nat, sectorSize: nat)
    requires payload > 0 && sectorSize > 0 && FitsChunks(|file|, payload, sectorSize)
    ensures Concat(Chunks(file, 0, 0, payload, sectorSize)) == Pad(file, sectorSize)
  {
    assert file[0..] == file;
    if Aligned(payload, sectorSize) {
      ChunksFromHere(file, 0, payload, sectorSize);
    } else if file != [] {
      LastChunk(file, 0, payload, sectorSize);
    }
  }

  /** Where the chunk is not a whole number of sectors, a longer file of nonzero bytes gets
      zeros in its middle. */
  lemma StreamIsTorn(n: nat, payload: nat, sectorSize: nat)
    requires payload > 0 && sectorSize > 0 && !FitsChunks(n, payload, sectorSize)
    ensures var file := seq(n, _ => 1 as byte);
            Concat(Chunks(file, 0, 0, payload, sectorSize)) != Pad(file, sectorSize)
  {
    var file: seq<byte> := seq(n, _ => 1);
    var data := ReadAt(file, 0, payload);
    var chunk := Pad(data, sectorSize);
    var rest := Chunks(file, |data|, |chunk|, payload, sectorSize);
    assert Chunks(file, 0, 0, payload, sectorSize) == [chunk] + rest;
    assert ([chunk] + rest)[1..] == rest;
    assert Concat([chunk] + rest)[payload] == 0 && Pad(file, sectorSize)[payload] == 1;
  }

  /** The chunks make up the padded file, for all files of a size, exactly if the size fits
      one chunk or the chunks are whole sectors. */
  lemma StreamIsPaddedIff(n: nat, payload: nat, sectorSize: nat)
    requires payload > 0 && sectorSize > 0
    ensures (forall file: seq<byte> :: |file| == n ==>
               Concat(Chunks(file, 0, 0, payload, sectorSize)) == Pad(file, sectorSize))
            <==> FitsChunks(n, payload, sectorSize)
  {
    if FitsChunks(n, payload, sectorSize) {
      forall file: seq<byte> | |file| == n
        ensures Concat(Chunks(file, 0, 0, payload, sectorSize)) == Pad(file, sectorSize)
      {
        StreamIsPadded(file, payload, sectorSize);
      }
    } else {
      StreamIsTorn(n, payload, sectorSize);
    }
  }

  // ---------------------------------------------------------------------------
  // One exchange, seen by the device
  // ---------------------------------------------------------------------------

  lemma {:induction false} PlayLogs(d: Device, w: seq<Event>)
    requires forall i :: 0 <= i < |w| ==> w[i] == Got(Log)
    ensures Play(d, w) == d
  {
    if w != [] {
      PlayLogs(d, w[..|w| - 1]);
    }
  }

  lemma PlayWait(d: Device, w: seq<Event>)
    requires IsWait(w)
    ensures Play(d, w) == Receive(d, Got(Verdict(w)))
  {
    hide Receive;
    PlayLogs(d, w[..|w| - 1]);
  }

  lemma {:induction false} PlayChunks(flash: Flash, p: ProgramCmd, chunks: seq<seq<byte>>)
    ensures Play(Device(flash, Receiving(p, [])), Delivered(chunks)) == Device(flash, Receiving(p, Concat(chunks)))
  {
    if chunks != [] {
      var n := |chunks| - 1;
      PlayChunks(flash, p, chunks[..n]);
      assert Delivered(chunks)[..n] == Delivered(chunks[..n]) && chunks[..n] + [chunks[n]] == chunks;
      ConcatSnoc(chunks[..n], chunks[n]);
    }
  }

  /** What a command does to the flash when the device goes along with it. */
  function Effect(u: Setup, c: Command, flash: Flash): Flash {
    match c
    case Erase(e) => Erased(flash, e)
    case Program(p) =>
      if u.payload > 0 && p.sectorSize > 0 && FileOf(u.files, p).Some? then
        Programmed(flash, p, Concat(ImageChunks(u, p)))
      else flash
    case _ => flash
  }

  lemma StepEffect(u: Setup, s: Step, flash: Flash)
    requires Exchanged(u, s) && Completed(u, s)
    ensures Play(Device(flash, Idle), Events(s)) == Device(Effect(u, s.cmd, flash), Idle)
  {
    hide ImageChunks, Chunks, Programmed, Erased, Concat, Delivered;
    var d := Device(flash, Idle);
    PlayConcat(d, [Sent(s.cmd)] + s.first + s.image, s.second);
    PlayConcat(d, [Sent(s.cmd)] + s.first, s.image);
    PlayConcat(d, [Sent(s.cmd)], s.first);
    var d1 := Receive(d, Sent(s.cmd));
    assert Play(d, [Sent(s.cmd)]) == d1 by {
      assert [Sent(s.cmd)][..0] == [];
    }
    PlayWait(d1, s.first);
    if s.cmd.Program? {
      PlayChunks(flash, s.cmd.program, ImageChunks(u, s.cmd.program));
      PlayWait(Play(d1, s.image), s.second);
    }
  }

  function Effects(u: Setup, cs: seq<Command>, flash: Flash): Flash {
    if cs == [] then flash else Effect(u, cs[|cs| - 1], Effects(u, cs[..|cs| - 1], flash))
  }

  lemma {:induction false} StepsEffect(u: Setup, steps: seq<Step>, flash: Flash)
    requires forall i :: 0 <= i < |steps| ==> Exchanged(u, steps[i]) && Completed(u, steps[i])
    ensures Play(Device(flash, Idle), Flatten(steps)) == Device(Effects(u, Commands(steps), flash), Idle)
  {
    hide Exchanged, Completed, Effect, Receive, Events;
    if steps != [] {
      var n := |steps| - 1;
      StepsEffect(u, steps[..n], flash);
      PlayConcat(Device(flash, Idle), Flatten(steps[..n]), Events(steps[n]));
      assert Commands(steps)[..n] == Commands(steps[..n]);
      StepEffect(u, steps[n], Effects(u, Commands(steps[..n]), flash));
    }
  }

  /** Answers, and configurations, leave an idle device alone. */
  lemma {:induction false} PlayIdle(flash: Flash, events: seq<Event>)
    requires forall i :: 0 <= i < |events| ==> events[i].Got? || (events[i].Sent? && events[i].cmd.Configure?)
    ensures Play(Device(flash, Idle), events) == Device(flash, Idle)
  {
    if events != [] {
      PlayIdle(flash, events[..|events| - 1]);
    }
  }

  lemma IdleParts(files: Directory, j: Job, log: RunLog, ok: bool, flash: Flash)
    requires Outcome(files, j, log, ok)
    ensures Play(Device(flash, Idle), log.greeting) == Device(flash, Idle)
    ensures Play(Device(flash, Idle), ConfigurationEvents(log.config)) == Device(flash, Idle)
    ensures Play(Device(flash, Idle), log.drain) == Device(flash, Idle)
  {
    hide Phases, Done, MainDone, Play;
    PlayIdle(flash, log.greeting);
    PlayIdle(flash, ConfigurationEvents(log.config));
    PlayIdle(flash, log.drain);
  }

  lemma RunEffect(files: Directory, j: Job, log: RunLog, ok: bool, flash: Flash)
    requires Outcome(files, j, log, ok) && AllCompleted(files, log)
    ensures Play(Device(flash, Idle), RunEvents(log))
            == Device(Effects(UnderWay(files, log), Commands(Steps(log)), flash), Idle)
  {
    hide Outcome, Exchanged, Completed, Play, Effects, ConfigurationEvents, Flatten, Commands, Steps;
    var d := Device(flash, Idle);
    var u, config, steps := UnderWay(files, log), ConfigurationEvents(log.config), Flatten(Steps(log));
    StepsExchanged(files, j, log, ok);
    StepsEffect(u, Steps(log), flash);
    IdleParts(files, j, log, ok, flash);
    IdleParts(files, j, log, ok, Effects(u, Commands(Steps(log)), flash));
    PlayFour(d, log.greeting, config, steps, log.drain);
  }

  lemma PlayFour(d: Device, a: seq<Event>, b: seq<Event>, c: seq<Event>, e: seq<Event>)
    ensures Play(d, a + b + c + e) == Play(Play(Play(Play(d, a), b), c), e)
  {
    hide Play;
    PlayConcat(d, a + b + c, e);
    PlayConcat(d, a + b, c);
    PlayConcat(d, a, b);
  }

  // ---------------------------------------------------------------------------
  // What stays in place
  // ---------------------------------------------------------------------------

  predicate Touches(c: Command, p: nat, s: nat) {
    match c
    case Erase(e) => Within(e.partition, e.start, e.sectors, p, s)
    case Program(q) => Within(q.partition, q.start, q.sectors, p, s)
    case _ => false
  }

  /** No sector of `q` is touched. */
  predicate Clear(c: Command, q: ProgramCmd) {
    forall s :: q.start <= s < q.start + q.sectors ==> !Touches(c, q.partition, s)
  }

  lemma EffectElsewhere(u: Setup, c: Command, flash: Flash, p: nat, s: nat)
    requires !Touches(c, p, s)
    ensures Effect(u, c, flash)(p, s) == flash(p, s)
  {
  }

  lemma {:induction false} Untouched(u: Setup, before: seq<Command>, after: seq<Command>, flash: Flash, p: nat, s: nat)
    requires forall i :: 0 <= i < |after| ==> !Touches(after[i], p, s)
    ensures Effects(u, before + after, flash)(p, s) == Effects(u, before, flash)(p, s)
  {
    if after == [] {
      assert before + after == before;
    } else {
      hide Effect, Touches;
      var n := |after| - 1;
      Untouched(u, before, after[..n], flash, p, s);
      assert (before + after)[..|before| + n] == before + after[..n];
      EffectElsewhere(u, after[n], Effects(u, before + after[..n], flash), p, s);
    }
  }

  lemma ProgrammedAt(flash: Flash, c: ProgramCmd, stream: seq<byte>, s: nat)
    requires s < c.sectors
    ensures Programmed(flash, c, stream)(c.partition, c.start + s) == Some(Slice(stream, c.sectorSize, s))
  {
    var at: nat := c.start + s;
    assert at - c.start == s;
    assert SectorAfter(flash, c, stream, c.partition, at) == Some(Slice(stream, c.sectorSize, s));
    assert Programmed(flash, c, stream)(c.partition, at) == SectorAfter(flash, c, stream, c.partition, at);
  }

  /** A program whose sectors nothing later touches leaves its stream there. */
  lemma LastProgramStays(u: Setup, before: seq<Command>, c: ProgramCmd, after: seq<Command>, flash: Flash, s: nat)
    requires u.payload > 0 && c.sectorSize > 0 && FileOf(u.files, c).Some? && s < c.sectors
    requires forall i :: 0 <= i < |after| ==> Clear(after[i], c)
    ensures Effects(u, before + [Program(c)] + after, flash)(c.partition, c.start + s)
            == Some(Slice(Concat(ImageChunks(u, c)), c.sectorSize, s))
  {
    hide ImageChunks, Concat, Slice, FileOf;
    Untouched(u, before + [Program(c)], after, flash, c.partition, c.start + s);
    assert (before + [Program(c)])[..|before|] == before;
    assert Effects(u, before + [Program(c)], flash)
           == Programmed(Effects(u, before, flash), c, Concat(ImageChunks(u, c)));
    ProgrammedAt(Effects(u, before, flash), c, Concat(ImageChunks(u, c)), s);
  }

  // ---------------------------------------------------------------------------
  // Sectors of a padded file
  // ---------------------------------------------------------------------------

  /** How many sectors a file takes, in full. */
  function Ceiling(size: nat, sectorSize: nat): nat
    requires sectorSize > 0
  {
    size / sectorSize + if size % sectorSize != 0 then 1 else 0
  }

  /** Sector `s` of a file: the file's bytes, and zeros past its end. */
  function SectorOf(file: seq<byte>, size: nat, s: nat): seq<byte> {
    seq(size, i requires 0 <= i < size => var at := s * size + i; if at < |file| then file[at] else 0)
  }

  lemma PaddedLength(file: seq<byte>, size: nat)
    requires size > 0
    ensures |Pad(file, size)| == Ceiling(|file|, size) * size && |file| <= |Pad(file, size)|
  {
    var q := |file| / size;
    assert |file| == size * q + |file| % size;
    if |file| % size != 0 {
      assert (q + 1) * size == size * q + size;
    }
  }

  lemma SliceOfPadded(file: seq<byte>, size: nat, s: nat)
    requires size > 0 && s < Ceiling(|file|, size)
    ensures Slice(Pad(file, size), size, s) == SectorOf(file, size, s)
  {
    PaddedLength(file, size);
    var padded := Pad(file, size);
    var last := Ceiling(|file|, size) - s - 1;
    assert (s + 1) * size + last * size == Ceiling(|file|, size) * size by {
      assert s + 1 + last == Ceiling(|file|, size);
    }
    assert last * size >= 0 && (s + 1) * size == s * size + size && s * size >= 0;
    assert forall at :: 0 <= at < |padded| ==> padded[at] == if at < |file| then file[at] else 0;
    assert Slice(padded, size, s) == padded[s * size..s * size + size];
  }

  // ---------------------------------------------------------------------------
  // The plan of a full download
  // ---------------------------------------------------------------------------

  lemma {:induction false} PickConcat(phase: Phase, part: Option<string>, a: seq<Entry>, b: seq<Entry>)
    ensures Pick(phase, part, a + b) == Pick(phase, part, a) + Pick(phase, part, b)
  {
    if b == [] {
      assert a + b == a;
    } else {
      var n := |b| - 1;
      PickConcat(phase, part, a, b[..n]);
      assert (a + b)[..|a| + n] == a + b[..n];
    }
  }

  lemma PickAround(phase: Phase, part: Option<string>, t: seq<Entry>, k: nat)
    requires k < |t| && Chosen(phase, part, t[k])
    ensures Pick(phase, part, t) == Pick(phase, part, t[..k]) + [t[k].cmd] + Pick(phase, part, t[k + 1..])
  {
    hide Chosen;
    assert t == t[..k + 1] + t[k + 1..];
    PickConcat(phase, part, t[..k + 1], t[k + 1..]);
    PickOneMore(phase, part, t, k);
  }

  predicate Apart(a: ProgramCmd, b: ProgramCmd) {
    a.partition != b.partition || a.start + a.sectors <= b.start || b.start + b.sectors <= a.start
  }

  /** No two programs of the table share a sector. */
  predicate Disjoint(t: seq<Entry>) {
    forall i, k :: 0 <= i < k < |t| && t[i].cmd.Program? && t[k].cmd.Program? ==>
      Apart(t[i].cmd.program, t[k].cmd.program)
  }

  /** Entry `k` is sent at all: in the main loop, or as the first program at sector 0. */
  predicate IsSent(part: Option<string>, t: seq<Entry>, k: nat)
    requires k < |t| && t[k].cmd.Program?
  {
    if t[k].cmd.program.start == 0 then forall i :: 0 <= i < k ==> !IsBoot(false, t[i]) else Selected(part, t[k])
  }

  lemma {:induction false} FirstBootIs(t: seq<Entry>, k: nat)
    requires k < |t| && IsBoot(false, t[k]) && forall i :: 0 <= i < k ==> !IsBoot(false, t[i])
    ensures FirstBoot(false, t) == [t[k].cmd]
  {
    BootFrom(false, t[..k]);
    assert forall i :: 0 <= i < k ==> t[..k][i] == t[i];
    FirstBootFound(false, t, k);
  }

  /** All that is sent for a full download that goes well. */
  function FullPlan(j: Job): seq<Command> {
    FirstBoot(true, j.t) + VendorPlan(j) + JobErases(j) + ProgramPlan(j) + FirstBoot(false, j.t) + [Reset]
  }

  lemma CommandsAre(u: Setup, plan: seq<Command>, steps: seq<Step>)
    requires Done(u, plan, steps) || Attempted(u, plan, steps)
    ensures Commands(steps) == plan
  {
  }

  lemma PlanOfRun(files: Directory, j: Job, log: RunLog)
    requires Outcome(files, j, log, true)
    ensures Commands(Steps(log)) == FullPlan(j)
  {
    hide Done, Attempted, Follows, Pick, FirstBoot, FirstWhole, Commands, Exchanged, Completed;
    var u := UnderWay(files, log);
    CommandsAre(u, FirstBoot(true, j.t), log.bootErase);
    CommandsAre(u, VendorPlan(j), log.vendors);
    CommandsAre(u, JobErases(j), log.erases);
    CommandsAre(u, ProgramPlan(j), log.programs);
    CommandsAre(u, FirstBoot(false, j.t), log.bootProgram);
    CommandsAre(u, [Reset], log.reset);
    CommandsOfSix(log.bootErase, log.vendors, log.erases, log.programs, log.bootProgram, log.reset);
  }

  lemma CommandsOfSix(a: seq<Step>, b: seq<Step>, c: seq<Step>, d: seq<Step>, e: seq<Step>, f: seq<Step>)
    ensures Commands(a + b + c + d + e + f)
            == Commands(a) + Commands(b) + Commands(c) + Commands(d) + Commands(e) + Commands(f)
  {
    CommandsConcat(a, b);
    CommandsConcat(a + b, c);
    CommandsConcat(a + b + c, d);
    CommandsConcat(a + b + c + d, e);
    CommandsConcat(a + b + c + d + e, f);
  }

  lemma CommandsConcat(a: seq<Step>, b: seq<Step>)
    ensures Commands(a + b) == Commands(a) + Commands(b)
  {
  }

  /** Where a program stands in the plan, and that nothing after it comes near its sectors. */
  lemma ProgramInPlan(j: Job, k: nat) returns (before: seq<Command>, after: seq<Command>)
    requires Disjoint(j.t) && k < |j.t| && j.t[k].cmd.Program? && IsSent(j.part, j.t, k)
    ensures FullPlan(j) == before + [j.t[k].cmd] + after
    ensures forall i :: 0 <= i < |after| ==> Clear(after[i], j.t[k].cmd.program)
  {
    hide Pick, FirstBoot, FirstWhole;
    var head := FirstBoot(true, j.t) + VendorPlan(j) + JobErases(j);
    BootFrom(false, j.t);
    var c := j.t[k].cmd;
    if c.program.start == 0 {
      assert IsBoot(false, j.t[k]);
      before, after := head + ProgramPlan(j), [Reset];
      FirstBootIs(j.t, k);
    } else {
      var rest := j.t[k + 1..];
      PickAround(Programs, j.part, j.t, k);
      before := head + Pick(Programs, j.part, j.t[..k]);
      after := Pick(Programs, j.part, rest) + FirstBoot(false, j.t) + [Reset];
      PlanAround(head, Pick(Programs, j.part, j.t[..k]), c, Pick(Programs, j.part, rest), FirstBoot(false, j.t));
      forall i | 0 <= i < |after| ensures Clear(after[i], c.program) {
        if i < |Pick(Programs, j.part, rest)| {
          PickSound(Programs, j.part, rest);
          PickedFrom(Programs, j.part, rest, i);
          var x :| 0 <= x < |rest| && rest[x].cmd == after[i];
          assert j.t[k + 1 + x] == rest[x];
        }
      }
    }
  }

  lemma PlanAround(head: seq<Command>, a: seq<Command>, c: Command, b: seq<Command>, boot: seq<Command>)
    ensures head + (a + [c] + b) + boot + [Reset] == (head + a) + [c] + (b + boot + [Reset])
  {
  }

  // ---------------------------------------------------------------------------
  // The result
  // ---------------------------------------------------------------------------

  /** A file small enough for its sectors to be counted in 32 bits, and its chunks in one piece. */
  predicate Regular(files: Directory, payload: nat, e: Entry)
    requires Tabled(e)
  {
    e.cmd.Program? ==>
      var p := e.cmd.program;
      var size := FileSize(files, p);
      Ceiling(size, p.sectorSize) < TWO_32 && FitsChunks(size, payload, p.sectorSize)
  }

  /** The flash holds the whole of a program's file, zero-padded, from its start sector on. */
  ghost predicate Stored(flash: Flash, p: ProgramCmd, file: seq<byte>)
    requires p.sectorSize > 0
  {
    forall s: nat :: s < Ceiling(|file|, p.sectorSize) ==>
      flash(p.partition, p.start + s) == Some(SectorOf(file, p.sectorSize, s))
  }

  lemma PlanStores(u: Setup, j: Job, flash: Flash, k: nat)
    requires Disjoint(j.t) && k < |j.t| && j.t[k].cmd.Program? && IsSent(j.part, j.t, k) && u.payload > 0
    requires var p := j.t[k].cmd.program;
             && p.sectorSize > 0 && FileOf(u.files, p).Some?
             && p.sectors == Ceiling(|FileOf(u.files, p).value|, p.sectorSize)
             && FitsChunks(|FileOf(u.files, p).value|, u.payload, p.sectorSize)
    ensures var p := j.t[k].cmd.program;
            Stored(Effects(u, FullPlan(j), flash), p, FileOf(u.files, p).value)
  {
    hide Effects, Slice, SectorOf, Concat, Disjoint, IsSent, FullPlan, FileOf, Clear, Ceiling;
    var p := j.t[k].cmd.program;
    var file := FileOf(u.files, p).value;
    var before, after := ProgramInPlan(j, k);
    StreamIsPadded(file, u.payload, p.sectorSize);
    forall s: nat | s < Ceiling(|file|, p.sectorSize)
      ensures Effects(u, FullPlan(j), flash)(p.partition, p.start + s) == Some(SectorOf(file, p.sectorSize, s))
    {
      LastProgramStays(u, before, p, after, flash, s);
      SliceOfPadded(file, p.sectorSize, s);
    }
  }

  /** A download in which the device goes along with everything leaves every file that it sends
      in place, whatever the flash held before, with or without erasing all of it first. In a
      part upgrade these are the files of the part; the boot loader is sent in any case, but
      sized only when it belongs to the part. */
  lemma FlashCorrect(files: Directory, part: Option<string>, eraseAll: bool, t: seq<Entry>, log: RunLog, flash: Flash,
                     k: nat)
    requires IsTable(t) && Starts(files, part, t)
    requires var j := JobOf(files, part, eraseAll, t);
             Outcome(files, j, log, true) && AllCompleted(files, log) && Disjoint(j.t)
    requires k < |t| && Wanted(part, t[k]) && Regular(files, Negotiated(log.config), t[k])
    requires t[k].cmd.program.start == 0 ==> forall i :: 0 <= i < k ==> !IsBoot(false, t[i])
    ensures FileOf(files, t[k].cmd.program).Some?
    ensures Stored(Play(Device(flash, Idle), RunEvents(log)).flash, t[k].cmd.program,
                   FileOf(files, t[k].cmd.program).value)
  {
    hide Outcome, Play, Effects, SectorOf, FileOf, FitsChunks, Ceiling, Disjoint, AllCompleted, FullPlan, RunEvents,
         Commands, Negotiated;
    var j := JobOf(files, part, eraseAll, t);
    var u := UnderWay(files, log);
    assert j.t[k].cmd == Program(Sized(files, t[k].cmd.program));
    WantedIsSent(files, part, t, k);
    SizedFile(files, t[k]);
    RunEffect(files, j, log, true, flash);
    PlanOfRun(files, j, log);
    NegotiatedPositive(log.config);
    PlanStores(u, j, flash, k);
  }

  // ---------------------------------------------------------------------------
  // What success alone is worth
  // ---------------------------------------------------------------------------

  /** Events that send no program leave an idle device idle. */
  lemma {:induction false} StaysIdle(flash: Flash, events: seq<Event>) returns (after: Flash)
    requires forall c :: c in Wire(events) ==> !c.Program?
    ensures Play(Device(flash, Idle), events) == Device(after, Idle)
  {
    after := flash;
    if events != [] {
      var e := events[|events| - 1];
      after := StaysIdle(flash, events[..|events| - 1]);
      assert e.Sent? ==> e.cmd in Wire(events);
      after := Receive(Device(after, Idle), e).flash;
    }
  }

  /** What is sent before the boot loader's program, and what after the other ones. */
  function MainSteps(log: RunLog): seq<Step> { log.vendors + log.erases + log.programs }
  function LastSteps(log: RunLog): seq<Step> { log.bootProgram + log.reset }

  function MainPlan(j: Job): seq<Command> { VendorPlan(j) + JobErases(j) + ProgramPlan(j) }

  lemma MainIsDone(files: Directory, j: Job, log: RunLog)
    requires Outcome(files, j, log, true)
    ensures Commands(MainSteps(log)) == MainPlan(j)
    ensures forall i :: 0 <= i < |MainSteps(log)| ==>
              Exchanged(UnderWay(files, log), MainSteps(log)[i]) && Completed(UnderWay(files, log), MainSteps(log)[i])
  {
    hide Attempted, Pick, FirstBoot, FirstWhole, Commands, Exchanged, Completed;
    var u := UnderWay(files, log);
    CommandsAre(u, VendorPlan(j), log.vendors);
    CommandsAre(u, JobErases(j), log.erases);
    CommandsAre(u, ProgramPlan(j), log.programs);
    CommandsConcat(log.vendors, log.erases);
    CommandsConcat(log.vendors + log.erases, log.programs);
  }

  /** The boot loader's erase, and whatever comes before it. */
  function Opening(log: RunLog): seq<Event> {
    log.greeting + ConfigurationEvents(log.config) + Flatten(log.bootErase)
  }

  lemma RunInThree(log: RunLog)
    ensures RunEvents(log) == Opening(log) + Flatten(MainSteps(log)) + (Flatten(LastSteps(log)) + log.drain)
  {
    hide Flatten, ConfigurationEvents;
    assert Steps(log) == log.bootErase + MainSteps(log) + LastSteps(log);
    FlattenConcat(log.bootErase + MainSteps(log), LastSteps(log));
    FlattenConcat(log.bootErase, MainSteps(log));
  }

  lemma OpeningSendsNoProgram(files: Directory, j: Job, log: RunLog, ok: bool)
    requires Outcome(files, j, log, ok)
    ensures forall c :: c in Wire(Opening(log)) ==> !c.Program?
  {
    hide Outcome, Exchanged, Flatten, ConfigurationEvents, IsConfiguration, Wire;
    OutcomeReceives(files, j, log, ok);
    PhaseKinds(files, j, log, ok);
    BootEraseExchanged(files, j, log, ok);
    WireOfSteps(UnderWay(files, log), log.bootErase);
    WireOfConfiguration(log.config);
    NothingSent(log.greeting);
    WireConcat(log.greeting + ConfigurationEvents(log.config), Flatten(log.bootErase));
    WireConcat(log.greeting, ConfigurationEvents(log.config));
  }

  lemma BootEraseExchanged(files: Directory, j: Job, log: RunLog, ok: bool)
    requires Outcome(files, j, log, ok)
    ensures forall i :: 0 <= i < |log.bootErase| ==> Exchanged(UnderWay(files, log), log.bootErase[i])
  {
    hide Exchanged, Completed, Pick, FirstBoot, FirstWhole;
    if !Configured(log.config) {
      assert |Steps(log)| >= |log.bootErase|;
    }
  }

  lemma LastCommands(files: Directory, j: Job, log: RunLog)
    requires Outcome(files, j, log, true)
    ensures forall c :: c in Wire(Flatten(LastSteps(log)) + log.drain) ==> c in FirstBoot(false, j.t) || c == Reset
  {
    LastExchanged(files, j, log);
    WireOfSteps(UnderWay(files, log), LastSteps(log));
    NothingSent(log.drain);
    hide Outcome, Flatten, Wire, FirstBoot;
    WireConcat(Flatten(LastSteps(log)), log.drain);
  }

  lemma LastExchanged(files: Directory, j: Job, log: RunLog)
    requires Outcome(files, j, log, true)
    ensures forall i :: 0 <= i < |LastSteps(log)| ==> Exchanged(UnderWay(files, log), LastSteps(log)[i])
    ensures forall c :: c in Commands(LastSteps(log)) ==> c in FirstBoot(false, j.t) || c == Reset
  {
    hide Exchanged, Completed, Pick, FirstBoot, FirstWhole;
    forall i | 0 <= i < |LastSteps(log)|
      ensures LastSteps(log)[i].cmd in FirstBoot(false, j.t) || LastSteps(log)[i].cmd == Reset
    {
      if i < |log.bootProgram| {
        assert LastSteps(log)[i] == log.bootProgram[i] && log.bootProgram[i].cmd == FirstBoot(false, j.t)[i];
      }
    }
  }

  /** Where a program stands in the main plan, and that neither what follows it there nor the
      boot loader comes near its sectors. */
  lemma ProgramInMain(j: Job, k: nat) returns (before: seq<Command>, after: seq<Command>)
    requires Disjoint(j.t) && k < |j.t| && j.t[k].cmd.Program? && IsSent(j.part, j.t, k)
    requires j.t[k].cmd.program.start != 0
    ensures MainPlan(j) == before + [j.t[k].cmd] + after
    ensures forall i :: 0 <= i < |after| ==> Clear(after[i], j.t[k].cmd.program)
    ensures forall c :: c in FirstBoot(false, j.t) ==> Clear(c, j.t[k].cmd.program)
  {
    hide Pick, FirstBoot, FirstWhole;
    var c, rest := j.t[k].cmd, j.t[k + 1..];
    BootFrom(false, j.t);
    PickAround(Programs, j.part, j.t, k);
    before := VendorPlan(j) + JobErases(j) + Pick(Programs, j.part, j.t[..k]);
    after := Pick(Programs, j.part, rest);
    assert VendorPlan(j) + JobErases(j) + (Pick(Programs, j.part, j.t[..k]) + [c] + after) == before + [c] + after;
    forall i | 0 <= i < |after| ensures Clear(after[i], c.program) {
      PickSound(Programs, j.part, rest);
      PickedFrom(Programs, j.part, rest, i);
      var x :| 0 <= x < |rest| && rest[x].cmd == after[i];
      assert j.t[k + 1 + x] == rest[x];
    }
  }

  /** After a run with a successful result, whatever has become of the boot loader, every file
      of the download that does not start at sector 0 lies in its place. */
  lemma SuccessStores(files: Directory, part: Option<string>, eraseAll: bool, t: seq<Entry>, log: RunLog, flash: Flash,
                      k: nat)
    requires IsTable(t) && Starts(files, part, t)
    requires var j := JobOf(files, part, eraseAll, t); Outcome(files, j, log, true) && Disjoint(j.t)
    requires k < |t| && Wanted(part, t[k]) && Regular(files, Negotiated(log.config), t[k])
    requires t[k].cmd.program.start != 0
    ensures FileOf(files, t[k].cmd.program).Some?
    ensures Stored(Play(Device(flash, Idle), RunEvents(log)).flash, t[k].cmd.program,
                   FileOf(files, t[k].cmd.program).value)
  {
    hide Outcome, Play, Effects, SectorOf, FileOf, FitsChunks, Ceiling, Disjoint, RunEvents, Commands, Negotiated, Wire,
         MainPlan, MainSteps, LastSteps, Opening, Flatten, FirstBoot, Clear;
    var j := JobOf(files, part, eraseAll, t);
    var u := UnderWay(files, log);
    assert j.t[k].cmd == Program(Sized(files, t[k].cmd.program));
    WantedIsSent(files, part, t, k);
    SizedFile(files, t[k]);
    NegotiatedPositive(log.config);
    OpeningSendsNoProgram(files, j, log, true);
    var ready := StaysIdle(flash, Opening(log));
    MainIsDone(files, j, log);
    StepsEffect(u, MainSteps(log), ready);
    RunInThree(log);
    PlayConcat(Device(flash, Idle), Opening(log) + Flatten(MainSteps(log)), Flatten(LastSteps(log)) + log.drain);
    PlayConcat(Device(flash, Idle), Opening(log), Flatten(MainSteps(log)));
    LastCommands(files, j, log);
    MainStores(u, j, ready, k, Flatten(LastSteps(log)) + log.drain);
  }

  lemma MainStores(u: Setup, j: Job, flash: Flash, k: nat, last: seq<Event>)
    requires Disjoint(j.t) && k < |j.t| && j.t[k].cmd.Program? && IsSent(j.part, j.t, k) && u.payload > 0
    requires var p := j.t[k].cmd.program;
             && p.start != 0 && p.sectorSize > 0 && FileOf(u.files, p).Some?
             && p.sectors == Ceiling(|FileOf(u.files, p).value|, p.sectorSize)
             && FitsChunks(|FileOf(u.files, p).value|, u.payload, p.sectorSize)
    requires forall c :: c in Wire(last) ==> c in FirstBoot(false, j.t) || c == Reset
    ensures var p := j.t[k].cmd.program;
            Stored(Play(Device(Effects(u, MainPlan(j), flash), Idle), last).flash, p, FileOf(u.files, p).value)
  {
    hide Effects, Slice, SectorOf, Concat, Disjoint, IsSent, MainPlan, FileOf, Ceiling, Wire, FirstBoot, Play;
    var p := j.t[k].cmd.program;
    var file := FileOf(u.files, p).value;
    var before, after := ProgramInMain(j, k);
    StreamIsPadded(file, u.payload, p.sectorSize);
    var d := Device(Effects(u, MainPlan(j), flash), Idle);
    forall s: nat | s < Ceiling(|file|, p.sectorSize)
      ensures Play(d, last).flash(p.partition, p.start + s) == Some(SectorOf(file, p.sectorSize, s))
    {
      LastProgramStays(u, before, p, after, flash, s);
      SliceOfPadded(file, p.sectorSize, s);
      PlayElsewhere(d, last, p.partition, p.start + s);
    }
  }

  lemma WantedIsSent(files: Directory, part: Option<string>, t: seq<Entry>, k: nat)
    requires IsTable(t) && k < |t| && Wanted(part, t[k])
    requires t[k].cmd.program.start == 0 ==> forall i :: 0 <= i < k ==> !IsBoot(false, t[i])
    ensures var after := Prepared(files, part, t);
            k < |after| && after[k].cmd.Program? && IsSent(part, after, k)
  {
    var after := Prepared(files, part, t);
    assert forall i :: 0 <= i < |t| ==> IsBoot(false, after[i]) == IsBoot(false, t[i]);
  }

  lemma BootProgramIsFirst(files: Directory, j: Job, log: RunLog, ok: bool, i: nat)
    requires Outcome(files, j, log, ok) && i < |Steps(log)| && IsBootProgram(Steps(log)[i].cmd)
    ensures FirstBoot(false, j.t) == [Steps(log)[i].cmd]
  {
    hide Exchanged, Completed, Pick, FirstBoot, FirstWhole;
    PhaseKinds(files, j, log, ok);
    FirstBootSound(false, j.t);
    var step := Steps(log)[i];
    assert step in log.bootErase || step in log.vendors || step in log.erases || step in log.programs
           || step in log.bootProgram || step in log.reset;
    var m :| 0 <= m < |log.bootProgram| && log.bootProgram[m] == step;
    assert FirstBoot(false, j.t)[m] == step.cmd;
  }

  /** A later program at sector 0 is not sent at all, in no run. */
  lemma LaterBootLoaderNeverSent(files: Directory, j: Job, log: RunLog, ok: bool, k: nat)
    requires Outcome(files, j, log, ok) && k < |j.t| && IsBoot(false, j.t[k]) && FirstBoot(false, j.t) != [j.t[k].cmd]
    ensures j.t[k].cmd !in Wire(RunEvents(log))
  {
    var c := j.t[k].cmd;
    WireOfRun(files, j, log, ok);
    hide Outcome, Wire, RunEvents, FirstBoot, Steps;
    if c in Commands(Steps(log)) {
      var i :| 0 <= i < |Steps(log)| && Steps(log)[i].cmd == c;
      BootProgramIsFirst(files, j, log, ok, i);
    }
  }

  lemma SizedFile(files: Directory, e: Entry)
    requires Tabled(e) && e.cmd.Program? && Sized(files, e.cmd.program).sectors != 0
    ensures var p := Sized(files, e.cmd.program);
            && FileOf(files, p).Some? && FileOf(files, e.cmd.program) == FileOf(files, p)
            && (Ceiling(|FileOf(files, p).value|, p.sectorSize) < TWO_32 ==>
                  p.sectors == Ceiling(|FileOf(files, p).value|, p.sectorSize))
  {
    SectorsInTwoSteps(0, e.cmd.program.sectorSize);
  }

  lemma NegotiatedPositive(c: Configuration)
    ensures Negotiated(c) > 0
  {
  }

  /** Events that send no command on a sector, and end no program on it, leave it alone. */
  lemma {:induction false} PlayElsewhere(d: Device, events: seq<Event>, p: nat, s: nat)
    requires forall c :: c in Wire(events) ==> !Touches(c, p, s)
    requires d.raw.Receiving? ==> !Touches(Program(d.raw.p), p, s)
    ensures var after := Play(d, events);
            && after.flash(p, s) == d.flash(p, s)
            && (after.raw.Receiving? ==> !Touches(Program(after.raw.p), p, s))
  {
    if events != [] {
      var e := events[|events| - 1];
      PlayElsewhere(d, events[..|events| - 1], p, s);
      assert e.Sent? ==> e.cmd in Wire(events);
    }
  }

  /** In every run, whatever the device answers and wherever the run ends, sectors that no
      command of the plan names keep what they held. */
  lemma FlashElsewhere(files: Directory, j: Job, log: RunLog, ok: bool, flash: Flash, p: nat, s: nat)
    requires Outcome(files, j, log, ok)
    requires forall i :: 0 <= i < |FullPlan(j)| ==> !Touches(FullPlan(j)[i], p, s)
    ensures Play(Device(flash, Idle), RunEvents(log)).flash(p, s) == flash(p, s)
  {
    WireOfRun(files, j, log, ok);
    hide Outcome, Play, FullPlan, RunEvents, Steps, Wire;
    forall c | c in Wire(RunEvents(log)) ensures !Touches(c, p, s) {
      if c in Commands(Steps(log)) {
        var i :| 0 <= i < |Steps(log)| && Steps(log)[i].cmd == c;
        SentInPlan(files, j, log, ok, i);
      }
    }
    PlayElsewhere(Device(flash, Idle), RunEvents(log), p, s);
  }

  /** What is sent is planned. */
  lemma SentInPlan(files: Directory, j: Job, log: RunLog, ok: bool, i: nat)
    requires Outcome(files, j, log, ok) && i < |Steps(log)|
    ensures Steps(log)[i].cmd in FullPlan(j)
  {
    hide Exchanged, Completed, Pick, FirstBoot, FirstWhole;
    var c := Steps(log)[i].cmd;
    if Configured(log.config) {
      assert Steps(log)[i] in log.bootErase || Steps(log)[i] in log.vendors || Steps(log)[i] in log.erases
             || Steps(log)[i] in log.programs || Steps(log)[i] in log.bootProgram || Steps(log)[i] in log.reset;
      assert c in FirstBoot(true, j.t) || c in VendorPlan(j) || c in JobErases(j) || c in ProgramPlan(j)
             || c in FirstBoot(false, j.t) || c in [Reset];
    }
  }
}
