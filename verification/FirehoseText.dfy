/** The command language letter for letter: the lines that erase and program commands are
    printed as, spelled out as format strings, and what is read from such lines. */
module FirehoseText {
  import opened FirehoseCommands
  import opened FirehoseRoundTrip
  import opened FirehoseXml
  import opened Options

  /** An attribute: its name, its value, and the blanks behind it. */
  datatype Field = Field(name: string, value: string, gap: string)

  function Fields(fs: seq<Field>): string {
    if fs == [] then "" else fs[0].name + "=\"" + fs[0].value + "\"" + fs[0].gap + Fields(fs[1..])
  }

  // ---------------------------------------------------------------------------
  // Numbers
  // ---------------------------------------------------------------------------

  /** Decimal digits, the last one lowest. */
  lemma DecimalDigits(n: nat, d: nat)
    requires d < 10
    ensures Decimal(d) == ["0123456789"[d]]
    ensures n > 0 ==> Decimal(10 * n + d) == Decimal(n) + ["0123456789"[d]]
  {
    var m := 10 * n + d;
    assert m / 10 == n && m % 10 == d;
  }

  /** An unsigned field printed with `%d`: from 2^31 on as the negative number of 32 bits. */
  lemma SignedIs(v: uint32)
    ensures Signed(v) == if v < 2147483648 then Decimal(v) else "-" + Decimal(4294967296 - v)
  {
  }

  // ---------------------------------------------------------------------------
  // What is printed
  // ---------------------------------------------------------------------------

  function Named(attrs: seq<Attr>): seq<Field> {
    seq(|attrs|, i requires 0 <= i < |attrs| => Field(Name(attrs[i].key), attrs[i].value, attrs[i].gap))
  }

  lemma {:induction false} TextIsFields(attrs: seq<Attr>)
    ensures Text(attrs) == Fields(Named(attrs))
  {
    if attrs != [] {
      hide Name;
      TextIsFields(attrs[1..]);
      assert Named(attrs)[1..] == Named(attrs[1..]);
    }
  }

  lemma NamesAre()
    ensures Name(PagesPerBlock) == "PAGES_PER_BLOCK"
    ensures Name(SectorSize) == "SECTOR_SIZE_IN_BYTES"
    ensures Name(Filename) == "filename"
    ensures Name(Label) == "label"
    ensures Name(LastSector) == "last_sector"
    ensures Name(Sectors) == "num_partition_sectors"
    ensures Name(Partition) == "physical_partition_number"
    ensures Name(Start) == "start_sector"
  {
  }

  /** With a label and a last sector an erase command is printed in full; without one of them,
      but with block and sector sizes, without these two fields; and otherwise with nothing but
      the sectors, as an unsigned number, and the start. */
  function EraseFields(e: EraseCmd): seq<Field> {
    if e.name != "" && e.lastSector != 0 then
      [Field("PAGES_PER_BLOCK", Signed(e.pagesPerBlock), " "),
       Field("SECTOR_SIZE_IN_BYTES", Signed(e.sectorSize), " "),
       Field("label", e.name, " "),
       Field("last_sector", Signed(e.lastSector), " "),
       Field("num_partition_sectors", Signed(e.sectors), " "),
       Field("physical_partition_number", Signed(e.partition), " "),
       Field("start_sector", Signed(e.start), " ")]
    else if e.pagesPerBlock != 0 && e.sectorSize != 0 then
      [Field("PAGES_PER_BLOCK", Signed(e.pagesPerBlock), " "),
       Field("SECTOR_SIZE_IN_BYTES", Signed(e.sectorSize), " "),
       Field("num_partition_sectors", Signed(e.sectors), " "),
       Field("physical_partition_number", Signed(e.partition), " "),
       Field("start_sector", Signed(e.start), "    ")]
    else
      [Field("num_partition_sectors", Decimal(e.sectors), " "),
       Field("start_sector", Signed(e.start), "    ")]
  }

  /** A program command is printed with or without label and last sector. */
  function ProgramFields(p: ProgramCmd): seq<Field> {
    if p.name != "" && p.lastSector != 0 then
      [Field("PAGES_PER_BLOCK", Signed(p.pagesPerBlock), " "),
       Field("SECTOR_SIZE_IN_BYTES", Signed(p.sectorSize), " "),
       Field("filename", p.filename, " "),
       Field("label", p.name, " "),
       Field("last_sector", Signed(p.lastSector), " "),
       Field("num_partition_sectors", Signed(p.sectors), "  "),
       Field("physical_partition_number", Signed(p.partition), " "),
       Field("start_sector", Signed(p.start), " ")]
    else
      [Field("PAGES_PER_BLOCK", Signed(p.pagesPerBlock), " "),
       Field("SECTOR_SIZE_IN_BYTES", Signed(p.sectorSize), " "),
       Field("filename", p.filename, " "),
       Field("num_partition_sectors", Signed(p.sectors), "  "),
       Field("physical_partition_number", Signed(p.partition), " "),
       Field("start_sector", Signed(p.start), " ")]
  }

  lemma NamedErase(e: EraseCmd)
    ensures Named(EraseAttrs(e)) == EraseFields(e)
  {
    NamesAre();
    hide Name, Signed, Decimal;
  }

  lemma NamedProgram(p: ProgramCmd)
    ensures Named(ProgramAttrs(p)) == ProgramFields(p)
  {
    NamesAre();
    hide Name, Signed;
  }

  /** Vendor lines go out as they came in; the others are spelled out field by field. */
  lemma PrintedText(c: Command)
    requires c.Vendor? || c.Erase? || c.Program?
    ensures c.Vendor? ==> Print(c) == c.buffer
    ensures c.Erase? ==> Print(c) == "<erase " + (Fields(EraseFields(c.erase)) + "/>")
    ensures c.Program? ==> Print(c) == "<program " + (Fields(ProgramFields(c.program)) + "/>")
  {
    hide Fields, Text, Named, EraseFields, ProgramFields, EraseAttrs, ProgramAttrs;
    if c.Erase? {
      NamedErase(c.erase);
      TextIsFields(EraseAttrs(c.erase));
    } else if c.Program? {
      NamedProgram(c.program);
      TextIsFields(ProgramAttrs(c.program));
    }
  }

  // ---------------------------------------------------------------------------
  // What is read
  // ---------------------------------------------------------------------------

  /** No quote, and none of the names. */
  ghost predicate PlainText(s: string) {
    && '"' !in s
    && !Occurs(s, "label") && !Occurs(s, "last_sector") && !Occurs(s, "num_partition_sectors")
    && !Occurs(s, "physical_partition_number") && !Occurs(s, "start_sector")
  }

  lemma PlainHasNoNames(s: string)
    requires PlainText(s)
    ensures forall k :: k in [Label, LastSector, Sectors, Partition, Start] ==> !Has(s, Name(k))
  {
    hide Occurs, Has;
    NamesAre();
    forall k | k in [Label, LastSector, Sectors, Partition, Start] ensures !Has(s, Name(k)) {
      HasIsOccurs(s, Name(k));
    }
  }

  /** The number in each field of an erase line is the value of that field of the command, for
      all values and whatever follows the line; what the line leaves out is zero or empty. */
  lemma EraseLineIsRead(e: EraseCmd, rest: string)
    requires |e.name| < 32 && PlainText(e.name) && NoNames(rest)
    ensures var full, sized := e.name != "" && e.lastSector != 0, e.pagesPerBlock != 0 && e.sectorSize != 0;
            Parse("<erase " + (Fields(EraseFields(e)) + "/>") + rest)
            == Some(Erase(EraseCmd(if full || sized then e.pagesPerBlock else 0,
                                   if full || sized then e.sectorSize else 0,
                                   if full then e.name else "", if full then e.lastSector else 0,
                                   e.sectors, if full || sized then e.partition else 0, e.start)))
  {
    hide Fields, Parse, Print, EraseFields, Has, NoNames;
    PlainHasNoNames(e.name);
    PrintedText(Erase(e));
    EraseRoundTrip(e, rest);
  }

  /** And so for program lines; one without a file name gives no command. */
  lemma ProgramLineIsRead(p: ProgramCmd, rest: string)
    requires |p.name| < 32 && |p.filename| < 64 && PlainText(p.name) && PlainText(p.filename) && NoNames(rest)
    ensures var full := p.name != "" && p.lastSector != 0;
            Parse("<program " + (Fields(ProgramFields(p)) + "/>") + rest)
            == if p.filename == "" then None
               else Some(Program(p.(filesz := 0, name := if full then p.name else "",
                                    lastSector := if full then p.lastSector else 0)))
  {
    hide Fields, Parse, Print, ProgramFields, Has, NoNames;
    PlainHasNoNames(p.name);
    PlainHasNoNames(p.filename);
    PrintedText(Program(p));
    ProgramRoundTrip(p, rest);
  }

  /** A line with the vendor mark is kept as it is, cut to 255 characters; any other line that
      does not begin with one of the two tags gives no command. */
  lemma OtherLinesAreRead(line: string)
    ensures Occurs(line, "vendor=\"quectel\"") ==>
              Parse(line) == Some(Vendor(if |line| <= 255 then line else line[..255]))
    ensures !Occurs(line, "vendor=\"quectel\"") && !("<erase " <= line) && !("<program " <= line) ==>
              Parse(line) == None
  {
    hide Occurs, Has;
    HasIsOccurs(line, VENDOR);
  }
}
