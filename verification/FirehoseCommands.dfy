/** The commands of the Firehose protocol, as the table of a download package holds them. */
module FirehoseCommands {
  import opened Bytes
  import opened Options

  type uint32 = x: int | 0 <= x < 0x1_0000_0000

  /** `name` is the label, `partition` the physical partition number. */
  datatype EraseCmd = EraseCmd(pagesPerBlock: uint32, sectorSize: uint32, name: string, lastSector: uint32,
                               sectors: uint32, partition: uint32, start: uint32)

  datatype ProgramCmd = ProgramCmd(filename: string, filesz: uint32, pagesPerBlock: uint32, sectorSize: uint32,
                                   name: string, lastSector: uint32, sectors: uint32, partition: uint32, start: uint32)

  datatype Command =
    | Configure(payload: uint32)
    | Vendor(buffer: string)
    | Erase(erase: EraseCmd)
    | Program(program: ProgramCmd)
    | Reset

  /** A line of the command table; `upgrade` is the `part_upgrade` mark. */
  datatype Entry = Entry(cmd: Command, upgrade: bool)

  /** What a table may hold. A program's sector size is divided by, and the part upgrade
      skips the first three characters of its file name. */
  predicate Tabled(e: Entry) {
    && (e.cmd.Vendor? || e.cmd.Erase? || e.cmd.Program?)
    && (e.cmd.Program? ==> e.cmd.program.sectorSize > 0 && |e.cmd.program.filename| >= 3)
  }

  predicate IsTable(t: seq<Entry>) { forall k :: 0 <= k < |t| ==> Tabled(t[k]) }

  type Directory = map<string, seq<byte>>

  function UnixName(filename: string): string {
    seq(|filename|, i requires 0 <= i < |filename| => if filename[i] == '\\' then '/' else filename[i])
  }

  /** The contents of a command's file; nothing when it cannot be opened. */
  function FileOf(files: Directory, p: ProgramCmd): Option<seq<byte>> {
    if UnixName(p.filename) in files then Some(files[UnixName(p.filename)]) else None
  }

  function FileSize(files: Directory, p: ProgramCmd): nat {
    if FileOf(files, p).Some? then |FileOf(files, p).value| else 0
  }
}
