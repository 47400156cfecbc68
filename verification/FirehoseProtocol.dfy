/** What goes over the wire when a package is downloaded: single exchanges, the order in which
    the commands of a table are taken, and whole runs, for a device that may answer whatever
    it likes. `Outcome` puts the phases of a run together. */
module FirehoseProtocol {
  import opened Bytes
  import opened FirehoseCommands
  import opened Options
  import opened Sequences

  datatype Value = Ack | Nak | Other

  /** What one call of `fh_recv_cmd` yields; a timeout or an unknown text is a failure. */
  datatype Reply = Log | Response(value: Value, rawmode: bool, maxPayload: uint32) | Failure

  datatype Event = Sent(cmd: Command) | Got(reply: Reply) | Chunk(data: seq<byte>, ok: bool)

  // ---------------------------------------------------------------------------
  // Single exchanges
  // ---------------------------------------------------------------------------

  /** Log lines, and then something else. */
  predicate IsWait(w: seq<Event>) {
    && w != []
    && (forall i :: 0 <= i < |w| - 1 ==> w[i] == Got(Log))
    && w[|w| - 1].Got? && !w[|w| - 1].reply.Log?
  }

  function Verdict(w: seq<Event>): Reply
    requires IsWait(w)
  {
    w[|w| - 1].reply
  }

  predicate Acked(w: seq<Event>) {
    IsWait(w) && Verdict(w).Response? && Verdict(w).value == Ack
  }

  predicate RawOn(w: seq<Event>) { Acked(w) && Verdict(w).rawmode }

  predicate RawOff(w: seq<Event>) { Acked(w) && !Verdict(w).rawmode }

  function Zeros(n: nat): seq<byte> { seq(n, _ => 0) }

  /** Zero bytes up to a whole number of sectors. */
  function Pad(data: seq<byte>, sectorSize: nat): seq<byte>
    requires sectorSize > 0
  {
    if |data| % sectorSize == 0 then data else data + Zeros(sectorSize - |data| % sectorSize)
  }

  function ReadAt(file: seq<byte>, pos: nat, payload: nat): seq<byte>
    requires pos <= |file|
  {
    if pos + payload <= |file| then file[pos..pos + payload] else file[pos..]
  }

  /** The chunks that are written from file position `pos` on, when `sent` bytes have been
      counted as sent: the count includes the padding, the position does not. */
  function Chunks(file: seq<byte>, pos: nat, sent: nat, payload: nat, sectorSize: nat): seq<seq<byte>>
    requires pos <= sent && payload > 0 && sectorSize > 0
    decreases |file| - pos
  {
    if sent >= |file| then []
    else
      var data := ReadAt(file, pos, payload);
      var chunk := Pad(data, sectorSize);
      [chunk] + Chunks(file, pos + |data|, sent + |chunk|, payload, sectorSize)
  }

  function Delivered(chunks: seq<seq<byte>>): seq<Event> {
    seq(|chunks|, i requires 0 <= i < |chunks| => Chunk(chunks[i], true))
  }

  /** One command and all that went over the wire for it. */
  datatype Step = Step(cmd: Command, first: seq<Event>, image: seq<Event>, second: seq<Event>)

  function Events(s: Step): seq<Event> { [Sent(s.cmd)] + s.first + s.image + s.second }

  /** What a run depends on besides the table. */
  datatype Setup = Setup(files: Directory, payload: nat)

  function ImageChunks(u: Setup, p: ProgramCmd): seq<seq<byte>>
    requires u.payload > 0 && p.sectorSize > 0 && FileOf(u.files, p).Some?
  {
    Chunks(FileOf(u.files, p).value, 0, 0, u.payload, p.sectorSize)
  }

  predicate ImageDone(u: Setup, p: ProgramCmd, image: seq<Event>)
    requires u.payload > 0 && p.sectorSize > 0
  {
    FileOf(u.files, p).Some? && image == Delivered(ImageChunks(u, p))
  }

  /** The file is gone, or a chunk could not be written whole. */
  predicate ImageBroken(u: Setup, p: ProgramCmd, image: seq<Event>)
    requires u.payload > 0 && p.sectorSize > 0
  {
    if FileOf(u.files, p).None? then image == []
    else
      var chunks := ImageChunks(u, p);
      var n := |image| - 1;
      0 <= n < |chunks| && image == Delivered(chunks[..n]) + [Chunk(chunks[n], false)]
  }

  /** An image is sent exactly when raw mode was switched on for it, and only a whole image is
      followed by a second wait. */
  predicate Exchanged(u: Setup, s: Step) {
    && u.payload > 0 && IsWait(s.first)
    && if !s.cmd.Program? then s.image == [] && s.second == []
       else
         && s.cmd.program.sectorSize > 0
         && if !RawOn(s.first) then s.image == [] && s.second == []
            else
              || (ImageDone(u, s.cmd.program, s.image) && IsWait(s.second))
              || (ImageBroken(u, s.cmd.program, s.image) && s.second == [])
  }

  /** The device has gone along with all of it. */
  predicate Completed(u: Setup, s: Step) {
    match s.cmd
    case Program(p) =>
      && u.payload > 0 && p.sectorSize > 0
      && RawOn(s.first) && ImageDone(u, p, s.image) && RawOff(s.second)
    case Reset => IsWait(s.first) && Verdict(s.first).Response?
    case _ => Acked(s.first)
  }

  function Flatten(steps: seq<Step>): seq<Event> {
    if steps == [] then [] else Flatten(steps[..|steps| - 1]) + Events(steps[|steps| - 1])
  }

  lemma AssocSeven<T>(t: seq<T>, a: seq<T>, b: seq<T>, c: seq<T>, d: seq<T>, e: seq<T>, f: seq<T>)
    ensures t + a + b + c + d + e + f == t + (a + b + c + d + e + f)
  {
  }

  lemma AssocFour<T>(t: seq<T>, a: seq<T>, b: seq<T>, c: seq<T>, d: seq<T>)
    ensures t + a + b + c + d == t + (a + b + c + d)
    ensures d == [] ==> t + a + b + c == t + (a + b + c + d)
    ensures c == [] && d == [] ==> t + a + b == t + (a + b + c + d)
  {
  }

  lemma FlattenNil()
    ensures Flatten([]) == []
  {
  }

  lemma FlattenSnoc(steps: seq<Step>, s: Step)
    ensures Flatten(steps + [s]) == Flatten(steps) + Events(s)
  {
    hide Events;
    assert (steps + [s])[..|steps|] == steps;
  }

  lemma {:induction false} FlattenConcat(a: seq<Step>, b: seq<Step>)
    ensures Flatten(a + b) == Flatten(a) + Flatten(b)
  {
    hide Events, Flatten;
    FlattenNil();
    if b == [] {
      assert a + b == a;
    } else {
      var n := |b| - 1;
      FlattenConcat(a, b[..n]);
      FlattenSnoc(a + b[..n], b[n]);
      FlattenSnoc(b[..n], b[n]);
      assert (a + b[..n]) + [b[n]] == a + b && b[..n] + [b[n]] == b;
      Assoc(Flatten(a), Flatten(b[..n]), Events(b[n]));
    }
  }

  // ---------------------------------------------------------------------------
  // Sequences of exchanges
  // ---------------------------------------------------------------------------

  /** The planned commands in order, up to the first that the device does not go along with. */
  ghost predicate Follows(u: Setup, plan: seq<Command>, steps: seq<Step>) {
    && |steps| <= |plan|
    && (forall i :: 0 <= i < |steps| ==> steps[i].cmd == plan[i] && Exchanged(u, steps[i]))
    && (forall i :: 0 <= i < |steps| - 1 ==> Completed(u, steps[i]))
    && (|steps| < |plan| ==> steps != [] && !Completed(u, steps[|steps| - 1]))
  }

  ghost predicate Done(u: Setup, plan: seq<Command>, steps: seq<Step>) {
    |steps| == |plan| && forall i :: 0 <= i < |steps| ==> steps[i].cmd == plan[i] && Completed(u, steps[i])
  }

  /** Sent whatever comes of it. */
  ghost predicate Attempted(u: Setup, plan: seq<Command>, steps: seq<Step>) {
    |steps| == |plan| && forall i :: 0 <= i < |steps| ==> steps[i].cmd == plan[i] && Exchanged(u, steps[i])
  }

  lemma FollowOneMore(u: Setup, plan: seq<Command>, steps: seq<Step>, step: Step)
    requires Follows(u, plan, steps) && Done(u, plan, steps) && Exchanged(u, step)
    ensures Follows(u, plan + [step.cmd], steps + [step])
    ensures Done(u, plan + [step.cmd], steps + [step]) <==> Completed(u, step)
  {
    var longer := steps + [step];
    assert longer[|steps|] == step;
    assert forall i :: 0 <= i < |steps| ==> longer[i] == steps[i];
  }

  lemma FollowLonger(u: Setup, plan: seq<Command>, steps: seq<Step>, longer: seq<Command>)
    requires Follows(u, plan, steps) && !Done(u, plan, steps) && plan <= longer
    ensures Follows(u, longer, steps) && !Done(u, longer, steps)
  {
  }

  // ---------------------------------------------------------------------------
  // The plan
  // ---------------------------------------------------------------------------

  datatype Phase = Vendors | Erases | Programs

  predicate Selected(part: Option<string>, e: Entry) { part.None? || e.upgrade }

  /** The boot loader is what starts at sector 0; the main loops leave it alone. */
  predicate Chosen(phase: Phase, part: Option<string>, e: Entry) {
    match phase
    case Vendors => e.cmd.Vendor?
    case Erases => e.cmd.Erase? && Selected(part, e) && e.cmd.erase.start != 0
    case Programs => e.cmd.Program? && Selected(part, e) && e.cmd.program.start != 0
  }

  function Pick(phase: Phase, part: Option<string>, t: seq<Entry>): seq<Command> {
    if t == [] then []
    else
      var e := t[|t| - 1];
      Pick(phase, part, t[..|t| - 1]) + if Chosen(phase, part, e) then [e.cmd] else []
  }

  lemma PickOneMore(phase: Phase, part: Option<string>, t: seq<Entry>, x: nat)
    requires x < |t|
    ensures Pick(phase, part, t[..x + 1]) == if Chosen(phase, part, t[x]) then Pick(phase, part, t[..x]) + [t[x].cmd]
                                             else Pick(phase, part, t[..x])
  {
    assert t[..x + 1][..x] == t[..x];
  }

  lemma {:induction false} PickPrefix(phase: Phase, part: Option<string>, t: seq<Entry>, n: nat)
    requires n <= |t|
    ensures Pick(phase, part, t[..n]) <= Pick(phase, part, t)
    decreases |t|
  {
    if n < |t| {
      PickPrefix(phase, part, t[..|t| - 1], n);
      assert t[..|t| - 1][..n] == t[..n];
    } else {
      assert t[..n] == t;
    }
  }

  /** The first entry with a property, as a command list of at most one. */
  predicate IsBoot(erase: bool, e: Entry) {
    if erase then e.cmd.Erase? && e.cmd.erase.start == 0 else e.cmd.Program? && e.cmd.program.start == 0
  }

  function FirstBoot(erase: bool, t: seq<Entry>): seq<Command> {
    if t == [] then []
    else
      var before := FirstBoot(erase, t[..|t| - 1]);
      if before == [] && IsBoot(erase, t[|t| - 1]) then [t[|t| - 1].cmd] else before
  }

  lemma {:induction false} FirstBootFound(erase: bool, t: seq<Entry>, x: nat)
    requires x < |t| && IsBoot(erase, t[x]) && FirstBoot(erase, t[..x]) == []
    ensures FirstBoot(erase, t) == [t[x].cmd]
  {
    var n := |t| - 1;
    if x == n {
      assert t[..x] == t[..n];
    } else {
      assert t[..n][..x] == t[..x];
      FirstBootFound(erase, t[..n], x);
    }
  }

  predicate IsPickedErase(part: Option<string>, e: Entry) { e.cmd.Erase? && Selected(part, e) }

  function Whole(cmd: Command, max: uint32): Command
    requires cmd.Erase?
  {
    Erase(cmd.erase.(start := 0, sectors := max))
  }

  /** Erasing everything takes the first selected erase command and widens it. */
  function FirstWhole(part: Option<string>, t: seq<Entry>, max: uint32): seq<Command> {
    if t == [] then []
    else
      var before := FirstWhole(part, t[..|t| - 1], max);
      if before == [] && IsPickedErase(part, t[|t| - 1]) then [Whole(t[|t| - 1].cmd, max)] else before
  }

  lemma {:induction false} FirstWholeFound(part: Option<string>, t: seq<Entry>, max: uint32, x: nat)
    requires x < |t| && IsPickedErase(part, t[x]) && FirstWhole(part, t[..x], max) == []
    ensures FirstWhole(part, t, max) == [Whole(t[x].cmd, max)]
  {
    var n := |t| - 1;
    if x == n {
      assert t[..x] == t[..n];
    } else {
      assert t[..n][..x] == t[..x];
      FirstWholeFound(part, t[..n], max, x);
    }
  }

  function ErasePlan(part: Option<string>, eraseAll: bool, t: seq<Entry>, max: uint32): seq<Command> {
    if eraseAll then FirstWhole(part, t, max) else Pick(Erases, part, t)
  }

  /** Tables that differ in nothing but erase commands program the same. */
  predicate SamePrograms(t: seq<Entry>, t': seq<Entry>) {
    |t| == |t'| && forall k :: 0 <= k < |t| ==> t[k] == t'[k] || (t[k].cmd.Erase? && t'[k].cmd.Erase?)
  }

  lemma {:induction false} SameProgramPlan(part: Option<string>, t: seq<Entry>, t': seq<Entry>)
    requires SamePrograms(t, t')
    ensures Pick(Programs, part, t) == Pick(Programs, part, t') && FirstBoot(false, t) == FirstBoot(false, t')
  {
    if t != [] {
      SameProgramPlan(part, t[..|t| - 1], t'[..|t| - 1]);
    }
  }

  // ---------------------------------------------------------------------------
  // Preparation of the table
  // ---------------------------------------------------------------------------

  /** Whether a part upgrade picks this entry. */
  predicate Named(part: Option<string>, e: Entry) {
    part.Some? && e.cmd.Program? && |e.cmd.program.filename| >= 3 && e.cmd.program.filename[3..] == part.value
  }

  predicate NamedAt(part: Option<string>, t: seq<Entry>, n: nat, start: uint32)
    requires n <= |t|
  {
    exists j :: 0 <= j < n && Named(part, t[j]) && t[j].cmd.program.start == start
  }

  /** How many sectors a file takes, in 32 bits; zero when there is nothing to send. */
  function SectorCount(size: nat, sectorSize: nat): uint32
    requires sectorSize > 0
  {
    (size / sectorSize + if size % sectorSize != 0 then 1 else 0) % TWO_32
  }

  function Sized(files: Directory, p: ProgramCmd): ProgramCmd
    requires p.sectorSize > 0
  {
    p.(sectors := SectorCount(FileSize(files, p), p.sectorSize), filesz := FileSize(files, p) % TWO_32)
  }

  predicate Wanted(part: Option<string>, e: Entry) { e.cmd.Program? && (part.None? || Named(part, e)) }

  /** The table after the first `n` entries have been gone through. */
  function PreparedEntry(files: Directory, part: Option<string>, t: seq<Entry>, n: nat, k: nat): Entry
    requires k < |t| && n <= |t| && Tabled(t[k])
  {
    var e := t[k];
    if e.cmd.Erase? then e.(upgrade := e.upgrade || NamedAt(part, t, n, e.cmd.erase.start))
    else if e.cmd.Program? && k < n then
      var marked := if part.Some? then e.(upgrade := Named(part, e)) else e;
      if Wanted(part, e) then
        marked.(cmd := Program(Sized(files, e.cmd.program)))
      else marked
    else e
  }

  function Larger(a: uint32, b: uint32): uint32 { if a < b then b else a }

  function EraseEnd(t: seq<Entry>): uint32 {
    if t == [] then 0
    else
      var e := t[|t| - 1];
      var before := EraseEnd(t[..|t| - 1]);
      if e.cmd.Erase? then Larger(before, (e.cmd.erase.sectors + e.cmd.erase.start) % TWO_32) else before
  }

  /** Whether every file that will be sent is there and takes a number of sectors. */
  predicate Prepares(files: Directory, part: Option<string>, t: seq<Entry>)
    requires IsTable(t)
  {
    forall k :: 0 <= k < |t| && Wanted(part, t[k]) ==> Sized(files, t[k].cmd.program).sectors != 0
  }

  function Prepared(files: Directory, part: Option<string>, t: seq<Entry>): seq<Entry>
    requires IsTable(t)
  {
    seq(|t|, k requires 0 <= k < |t| => PreparedEntry(files, part, t, |t|, k))
  }

  // ---------------------------------------------------------------------------
  // A whole run
  // ---------------------------------------------------------------------------

  const PAYLOAD: uint32 := 8 * 1024

  /** The first answer, and the second where the configuration was offered again. */
  datatype Configuration = Configuration(first: seq<Event>, again: seq<Event>)

  /** Refused, but with the payload size that the device would take. */
  predicate Refused(w: seq<Event>) {
    IsWait(w) && Verdict(w).Response? && Verdict(w).value == Nak && Verdict(w).maxPayload != 0
  }

  function Negotiated(c: Configuration): uint32 {
    if Refused(c.first) then Verdict(c.first).maxPayload else PAYLOAD
  }

  function ConfigurationEvents(c: Configuration): seq<Event> {
    [Sent(Configure(PAYLOAD))] + c.first + if Refused(c.first) then [Sent(Configure(Negotiated(c)))] + c.again else []
  }

  predicate IsConfiguration(c: Configuration) {
    IsWait(c.first) && if Refused(c.first) then IsWait(c.again) else c.again == []
  }

  predicate Configured(c: Configuration) {
    Acked(if Refused(c.first) then c.again else c.first)
  }

  /** All that went over the wire, phase by phase. */
  datatype RunLog = RunLog(greeting: seq<Event>, config: Configuration, bootErase: seq<Step>, vendors: seq<Step>,
                           erases: seq<Step>, programs: seq<Step>, bootProgram: seq<Step>, reset: seq<Step>,
                           drain: seq<Event>)

  function Steps(log: RunLog): seq<Step> {
    log.bootErase + log.vendors + log.erases + log.programs + log.bootProgram + log.reset
  }

  predicate OnlyGot(w: seq<Event>) { forall i :: 0 <= i < |w| ==> w[i].Got? }

  /** Everything the device has to say, up to the first receive that fails. */
  predicate IsDrain(w: seq<Event>) {
    w != [] && OnlyGot(w) && forall i :: 0 <= i < |w| ==> (w[i] == Got(Failure) <==> i == |w| - 1)
  }

  /** One receive whatever comes of it, and then the rest. */
  predicate IsGreeting(w: seq<Event>) { |w| > 1 && w[0].Got? && IsDrain(w[1..]) }

  /** The table and the two command-line choices. */
  datatype Job = Job(part: Option<string>, eraseAll: bool, t: seq<Entry>, max: uint32)

  function VendorPlan(j: Job): seq<Command> { Pick(Vendors, j.part, j.t) }
  function JobErases(j: Job): seq<Command> { ErasePlan(j.part, j.eraseAll, j.t, j.max) }
  function ProgramPlan(j: Job): seq<Command> { Pick(Programs, j.part, j.t) }

  ghost predicate MainDone(u: Setup, j: Job, log: RunLog) {
    && Done(u, VendorPlan(j), log.vendors)
    && Done(u, JobErases(j), log.erases)
    && Done(u, ProgramPlan(j), log.programs)
  }

  /** What a run that has been configured consists of. The boot loader's erase comes first and
      its program last; neither outcome is looked at. */
  ghost predicate Phases(u: Setup, j: Job, log: RunLog) {
    && Attempted(u, FirstBoot(true, j.t), log.bootErase)
    && Follows(u, VendorPlan(j), log.vendors)
    && (if Done(u, VendorPlan(j), log.vendors) then Follows(u, JobErases(j), log.erases) else log.erases == [])
    && (if Done(u, VendorPlan(j), log.vendors) && Done(u, JobErases(j), log.erases)
        then Follows(u, ProgramPlan(j), log.programs) else log.programs == [])
    && (if MainDone(u, j, log)
        then Attempted(u, FirstBoot(false, j.t), log.bootProgram) && Follows(u, [Reset], log.reset)
        else log.bootProgram == [] && log.reset == [])
  }

  ghost predicate Outcome(files: Directory, j: Job, log: RunLog, ok: bool) {
    && IsGreeting(log.greeting) && (if ok then IsDrain(log.drain) else log.drain == []) && IsConfiguration(log.config)
    && if Configured(log.config) then
         var u := Setup(files, Negotiated(log.config));
         Phases(u, j, log) && (ok <==> MainDone(u, j, log) && Done(u, [Reset], log.reset))
       else
         !ok && Steps(log) == []
  }

  // ---------------------------------------------------------------------------
  // Sending an image
  // ---------------------------------------------------------------------------

  method ReadLength(file: seq<byte>, pos: nat, payload: nat) returns (n: nat)
    requires pos < |file| && payload > 0
    ensures n == |ReadAt(file, pos, payload)| && 0 < n <= |file| - pos
  {
    n := if pos + payload <= |file| then payload else |file| - pos;
  }

  method PadChunk(data: seq<byte>, sectorSize: nat) returns (chunk: seq<byte>, len: nat)
    requires sectorSize > 0
    ensures chunk == Pad(data, sectorSize) && len == |chunk| && |data| <= len
  {
    chunk, len := data, |data|;
    if len % sectorSize != 0 {
      chunk := chunk + Zeros(sectorSize - len % sectorSize);
      len := len + (sectorSize - len % sectorSize);
    }
  }

  lemma NextChunk(file: seq<byte>, pos: nat, sent: nat, payload: nat, sectorSize: nat)
    requires pos <= sent < |file| && payload > 0 && sectorSize > 0
    ensures var data := ReadAt(file, pos, payload);
            var chunk := Pad(data, sectorSize);
            var all := Chunks(file, pos, sent, payload, sectorSize);
            && |data| <= |chunk|
            && all != [] && all[0] == chunk
            && all[1..] == Chunks(file, pos + |data|, sent + |chunk|, payload, sectorSize)
  {
  }

  lemma NoMoreChunks(file: seq<byte>, pos: nat, sent: nat, payload: nat, sectorSize: nat)
    requires |file| <= sent && pos <= sent && payload > 0 && sectorSize > 0
    ensures Chunks(file, pos, sent, payload, sectorSize) == []
  {
  }

  lemma DeliveredNone()
    ensures Delivered([]) == []
  {
  }

  lemma DeliveredOneMore(done: seq<seq<byte>>, rest: seq<seq<byte>>, image: seq<Event>, data: seq<byte>, whole: bool)
    requires image == Delivered(done) && rest != [] && rest[0] == data
    ensures whole ==> image + [Chunk(data, whole)] == Delivered(done + [data])
    ensures (done + rest)[|done|] == data && (done + rest)[..|done|] == done && |image| == |done|
    ensures done + rest == (done + [data]) + rest[1..]
  {
  }

  lemma ImageMissing(u: Setup, p: ProgramCmd)
    requires u.payload > 0 && p.sectorSize > 0 && FileOf(u.files, p).None?
    ensures ImageBroken(u, p, [])
  {
  }

  lemma ImageStarts(u: Setup, p: ProgramCmd)
    requires u.payload > 0 && p.sectorSize > 0 && FileOf(u.files, p).Some?
    ensures [] + Chunks(FileOf(u.files, p).value, 0, 0, u.payload, p.sectorSize) == ImageChunks(u, p)
  {
    hide Chunks;
  }

  lemma ImageBreaks(u: Setup, p: ProgramCmd, done: seq<seq<byte>>, rest: seq<seq<byte>>, data: seq<byte>)
    requires u.payload > 0 && p.sectorSize > 0 && FileOf(u.files, p).Some?
    requires done + rest == ImageChunks(u, p) && rest != [] && rest[0] == data
    ensures ImageBroken(u, p, Delivered(done) + [Chunk(data, false)])
  {
    hide ImageChunks;
    assert (done + rest)[..|done|] == done;
  }

  lemma ImageEnds(u: Setup, p: ProgramCmd, done: seq<seq<byte>>)
    requires u.payload > 0 && p.sectorSize > 0 && FileOf(u.files, p).Some? && done + [] == ImageChunks(u, p)
    ensures ImageDone(u, p, Delivered(done))
  {
    hide ImageChunks, Delivered;
    assert done + [] == done;
  }

  lemma {:induction false} ImageNotDone(u: Setup, p: ProgramCmd, image: seq<Event>)
    requires u.payload > 0 && p.sectorSize > 0 && ImageBroken(u, p, image)
    ensures !ImageDone(u, p, image)
  {
    if FileOf(u.files, p).Some? {
      assert !image[|image| - 1].ok;
    }
  }

  /** A run of exchanges grows by one. */
  lemma OneMoreStep(u: Setup, plan: seq<Command>, steps: seq<Step>, s: Step, before: seq<Event>)
    requires Follows(u, plan, steps) && Done(u, plan, steps) && Exchanged(u, s)
    ensures Follows(u, plan + [s.cmd], steps + [s])
    ensures Done(u, plan + [s.cmd], steps + [s]) == Completed(u, s)
    ensures before + Flatten(steps) + Events(s) == before + Flatten(steps + [s])
  {
    hide Exchanged, Completed, Events, Flatten;
    FollowOneMore(u, plan, steps, s);
    FlattenSnoc(steps, s);
    Assoc(before, Flatten(steps), Events(s));
  }

  lemma NothingPlanned(phase: Phase, part: Option<string>)
    ensures Pick(phase, part, []) == []
  {
  }

  lemma NothingYet(u: Setup)
    ensures Follows(u, [], []) && Done(u, [], [])
  {
  }

  /** What stopped early also stops the whole plan. */
  lemma EarlyEnd(u: Setup, phase: Phase, part: Option<string>, t: seq<Entry>, n: nat, steps: seq<Step>)
    requires n <= |t| && Follows(u, Pick(phase, part, t[..n]), steps) && !Done(u, Pick(phase, part, t[..n]), steps)
    ensures Follows(u, Pick(phase, part, t), steps) && !Done(u, Pick(phase, part, t), steps)
  {
    PickPrefix(phase, part, t, n);
    FollowLonger(u, Pick(phase, part, t[..n]), steps, Pick(phase, part, t));
  }

  function RunEvents(log: RunLog): seq<Event> {
    log.greeting + ConfigurationEvents(log.config) + Flatten(Steps(log)) + log.drain
  }

  /** What `firehose_main` demands before it talks to the device. */
  predicate Starts(files: Directory, part: Option<string>, t: seq<Entry>)
    requires IsTable(t)
  {
    t != [] && Prepares(files, part, t)
  }

  function JobOf(files: Directory, part: Option<string>, eraseAll: bool, t: seq<Entry>): Job
    requires IsTable(t)
  {
    Job(part, eraseAll, Prepared(files, part, t), EraseEnd(t))
  }

  lemma FlattenSix(a: seq<Step>, b: seq<Step>, c: seq<Step>, d: seq<Step>, e: seq<Step>, f: seq<Step>)
    ensures Flatten(a + b + c + d + e + f)
            == Flatten(a) + Flatten(b) + Flatten(c) + Flatten(d) + Flatten(e) + Flatten(f)
  {
    hide Flatten;
    FlattenConcat(a, b);
    FlattenConcat(a + b, c);
    FlattenConcat(a + b + c, d);
    FlattenConcat(a + b + c + d, e);
    FlattenConcat(a + b + c + d + e, f);
  }

  lemma GreetingIsReceived(w: seq<Event>)
    requires IsGreeting(w)
    ensures OnlyGot(w)
  {
    assert forall i :: 1 <= i < |w| ==> w[i] == w[1..][i - 1];
  }

  lemma OutcomeReceives(files: Directory, j: Job, log: RunLog, ok: bool)
    requires Outcome(files, j, log, ok)
    ensures OnlyGot(log.greeting) && OnlyGot(log.drain) && IsConfiguration(log.config)
  {
    hide Phases, MainDone, Done;
    GreetingIsReceived(log.greeting);
  }

  /** The phases are about the steps alone. */
  lemma PhasesOfSteps(u: Setup, j: Job, log: RunLog, greeting: seq<Event>, drain: seq<Event>)
    ensures var log' := log.(greeting := greeting, drain := drain);
            && Phases(u, j, log') == Phases(u, j, log) && MainDone(u, j, log') == MainDone(u, j, log)
            && Steps(log') == Steps(log)
  {
    hide Follows, Done, Attempted;
  }

  lemma SectorsInTwoSteps(size: nat, sectorSize: nat)
    requires sectorSize > 0
    ensures size % sectorSize != 0 ==> (size / sectorSize % TWO_32 + 1) % TWO_32 == SectorCount(size, sectorSize)
    ensures size % sectorSize == 0 ==> size / sectorSize % TWO_32 == SectorCount(size, sectorSize)
    ensures size == 0 ==> SectorCount(size, sectorSize) == 0
  {
    var q := size / sectorSize;
    assert q == TWO_32 * (q / TWO_32) + q % TWO_32;
    assert (q % TWO_32 + 1) % TWO_32 == (q + 1) % TWO_32;
    if size == 0 {
      assert size == sectorSize * 0;
    }
  }

  lemma NothingPrepared(files: Directory, part: Option<string>, t: seq<Entry>)
    requires IsTable(t)
    ensures forall k :: 0 <= k < |t| ==> PreparedEntry(files, part, t, 0, k) == t[k]
  {
  }

  /** Going through one more entry changes that entry, and marks the erases of its start. */
  lemma NamedAtOneMore(part: Option<string>, t: seq<Entry>, x: nat, start: uint32)
    requires x < |t|
    ensures NamedAt(part, t, x + 1, start)
            == (NamedAt(part, t, x, start) || (Named(part, t[x]) && t[x].cmd.program.start == start))
  {
  }
}
