/** The text of erase and program commands: `fh_send_cmd` prints them as one line of
    attributes, `fh_parse_xml_line` reads such a line by searching for the attribute names. */
module FirehoseXml {
  import opened Bytes
  import opened FirehoseCommands
  import opened Options

  // ---------------------------------------------------------------------------
  // Searching
  // ---------------------------------------------------------------------------

  predicate At(s: string, key: string, i: nat) { i + |key| <= |s| && s[i..i + |key|] == key }

  predicate Occurs(s: string, key: string) { exists i: nat :: i <= |s| && At(s, key, i) }

  /** `strstr` from position `from` on. */
  function Find(s: string, key: string, from: nat): (r: Option<nat>)
    ensures r.Some? ==>
              from <= r.value && At(s, key, r.value) && forall j: nat :: from <= j < r.value ==> !At(s, key, j)
    ensures r.None? ==> forall j: nat :: from <= j ==> !At(s, key, j)
    decreases |s| - from
  {
    if from + |key| > |s| then None
    else if At(s, key, from) then Some(from)
    else Find(s, key, from + 1)
  }

  predicate Has(s: string, key: string) { Find(s, key, 0).Some? }

  /** A string ends with a zero character. */
  function CharAt(s: string, i: nat): char { if i < |s| then s[i] else '\0' }

  /** The value that follows an occurrence of a key. The check for `="` gives up only if both
      characters are wrong; the value then runs up to the next quote. */
  function ValueAt(text: string): Option<string> {
    if (CharAt(text, 0) != '=' && CharAt(text, 1) != '"') || |text| < 2 then None
    else
      match Find(text, "\"", 2)
      case None => None
      case Some(end) => Some(text[2..end])
  }

  /** `fh_xml_get_value`: the first occurrence of the key decides, wherever it stands. */
  function GetValue(line: string, key: string): Option<string> {
    match Find(line, key, 0)
    case None => None
    case Some(i) => ValueAt(line[i + |key|..])
  }

  // ---------------------------------------------------------------------------
  // Numbers
  // ---------------------------------------------------------------------------

  predicate IsDigit(c: char) { '0' <= c <= '9' }

  function Decimal(n: nat): (s: string)
    ensures s != [] && forall i :: 0 <= i < |s| ==> IsDigit(s[i])
  {
    if n < 10 then [('0' as int + n) as char] else Decimal(n / 10) + [('0' as int + n % 10) as char]
  }

  /** `%d` of an unsigned field: the upper half of the range prints as negative. */
  function Signed(v: uint32): string {
    if v < 0x8000_0000 then Decimal(v) else "-" + Decimal(TWO_32 - v)
  }

  function DigitsFrom(s: string, acc: nat): nat {
    if s == [] || !IsDigit(s[0]) then acc else DigitsFrom(s[1..], acc * 10 + (s[0] as int - '0' as int))
  }

  predicate IsSpace(c: char) { c == ' ' || '\t' <= c <= '\r' }

  function Trimmed(s: string): string {
    if s != [] && IsSpace(s[0]) then Trimmed(s[1..]) else s
  }

  /** The number that a string starts with, before any narrowing. */
  function Number(s: string): int {
    var t := Trimmed(s);
    if t != [] && t[0] == '-' then var n: int := DigitsFrom(t[1..], 0); -n
    else if t != [] && t[0] == '+' then DigitsFrom(t[1..], 0)
    else DigitsFrom(t, 0)
  }

  const LONG_MAX := 0x7FFF_FFFF_FFFF_FFFF
  const ULONG_MAX := 0xFFFF_FFFF_FFFF_FFFF

  /** `atoi` stored in an unsigned field; it reads a 64-bit `long`, which saturates. */
  function Atoi(s: string): uint32 {
    var n := Number(s);
    (if n > LONG_MAX then LONG_MAX else if n < -LONG_MAX - 1 then -LONG_MAX - 1 else n) % TWO_32
  }

  function Strtoul(s: string): uint32 {
    var n := Number(s);
    (if n > ULONG_MAX || n < -ULONG_MAX then ULONG_MAX else n) % TWO_32
  }

  lemma {:induction false} DecimalReads(n: nat, rest: string)
    ensures DigitsFrom(Decimal(n) + rest, 0) == DigitsFrom(rest, n)
  {
    if n >= 10 {
      var last := [('0' as int + n % 10) as char];
      DecimalReads(n / 10, last + rest);
      assert Decimal(n) + rest == Decimal(n / 10) + (last + rest);
      assert (last + rest)[1..] == rest;
    } else {
      assert (Decimal(n) + rest)[1..] == rest;
    }
  }

  lemma NumberReads(n: nat)
    ensures Number(Decimal(n)) == n && Number("-" + Decimal(n)) == -(n as int)
  {
    DecimalReads(n, []);
    assert Decimal(n) + [] == Decimal(n);
    hide Decimal, DigitsFrom;
    assert IsDigit(Decimal(n)[0]);
    assert ("-" + Decimal(n))[1..] == Decimal(n);
  }

  lemma Narrowed(n: int, v: uint32)
    requires n == v || n == v - TWO_32
    ensures n % TWO_32 == v
  {
  }

  /** Printing as signed and reading back is the identity on 32 bits. */
  lemma SignedReads(v: uint32)
    ensures Number(Signed(v)) == if v < 0x8000_0000 then v else v - TWO_32
    ensures Atoi(Signed(v)) == v && Strtoul(Signed(v)) == v && Strtoul(Decimal(v)) == v
  {
    NumberReads(v);
    NumberReads(TWO_32 - v);
    Narrowed(v, v);
    Narrowed(v - TWO_32, v);
    hide Decimal, Number;
  }

  // ---------------------------------------------------------------------------
  // Attributes
  // ---------------------------------------------------------------------------

  datatype Key = PagesPerBlock | SectorSize | Filename | Label | LastSector | Sectors | Partition | Start

  function Name(k: Key): string {
    match k
    case PagesPerBlock => "PAGES_PER_BLOCK"
    case SectorSize => "SECTOR_SIZE_IN_BYTES"
    case Filename => "filename"
    case Label => "label"
    case LastSector => "last_sector"
    case Sectors => "num_partition_sectors"
    case Partition => "physical_partition_number"
    case Start => "start_sector"
  }

  /** An attribute and the blanks after it. */
  datatype Attr = Attr(key: Key, value: string, gap: string)

  function AttrText(a: Attr): string { Name(a.key) + "=\"" + a.value + "\"" + a.gap }

  function Text(attrs: seq<Attr>): string {
    if attrs == [] then "" else AttrText(attrs[0]) + Text(attrs[1..])
  }

  /** What follows the first occurrence of a key in a value. */
  function AfterKey(value: string, k: Key): string
    requires Has(value, Name(k))
  {
    value[Find(value, Name(k), 0).value + |Name(k)|..]
  }

  /** What a search for `k` yields that stops inside the value of `a`: the rest of the value,
      if two characters can be skipped in it and the first is an equals sign; with a single
      character left, what stands between this value and the next. */
  function Misread(a: Attr, next: seq<Attr>, k: Key): Option<string>
    requires Has(a.value, Name(k))
  {
    var r := AfterKey(a.value, k);
    if |r| == 1 then (if next == [] then None else Some(a.gap + Name(next[0].key) + "="))
    else if r != "" && r[0] == '=' then Some(r[2..])
    else None
  }

  /** What a search for `k` yields in a list of attributes. */
  function LookUp(attrs: seq<Attr>, k: Key): Option<string> {
    if attrs == [] then None
    else if attrs[0].key == k then Some(attrs[0].value)
    else if Has(attrs[0].value, Name(k)) then Misread(attrs[0], attrs[1..], k)
    else LookUp(attrs[1..], k)
  }

  predicate Present(attrs: seq<Attr>, k: Key) {
    attrs != [] && (attrs[0].key == k || Has(attrs[0].value, Name(k)) || Present(attrs[1..], k))
  }

  // ---------------------------------------------------------------------------
  // Printing
  // ---------------------------------------------------------------------------

  predicate Labelled(name: string, lastSector: uint32) { name != "" && lastSector != 0 }

  /** The three formats of an erase command. */
  function EraseAttrs(e: EraseCmd): seq<Attr> {
    if Labelled(e.name, e.lastSector) then
      [Attr(PagesPerBlock, Signed(e.pagesPerBlock), " "), Attr(SectorSize, Signed(e.sectorSize), " "),
       Attr(Label, e.name, " "), Attr(LastSector, Signed(e.lastSector), " "), Attr(Sectors, Signed(e.sectors), " "),
       Attr(Partition, Signed(e.partition), " "), Attr(Start, Signed(e.start), " ")]
    else if e.pagesPerBlock != 0 && e.sectorSize != 0 then
      [Attr(PagesPerBlock, Signed(e.pagesPerBlock), " "), Attr(SectorSize, Signed(e.sectorSize), " "),
       Attr(Sectors, Signed(e.sectors), " "), Attr(Partition, Signed(e.partition), " "),
       Attr(Start, Signed(e.start), "    ")]
    else
      [Attr(Sectors, Decimal(e.sectors), " "), Attr(Start, Signed(e.start), "    ")]
  }

  /** The two formats of a program command. */
  function ProgramAttrs(p: ProgramCmd): seq<Attr> {
    if Labelled(p.name, p.lastSector) then
      [Attr(PagesPerBlock, Signed(p.pagesPerBlock), " "), Attr(SectorSize, Signed(p.sectorSize), " "),
       Attr(Filename, p.filename, " "), Attr(Label, p.name, " "), Attr(LastSector, Signed(p.lastSector), " "),
       Attr(Sectors, Signed(p.sectors), "  "), Attr(Partition, Signed(p.partition), " "),
       Attr(Start, Signed(p.start), " ")]
    else
      [Attr(PagesPerBlock, Signed(p.pagesPerBlock), " "), Attr(SectorSize, Signed(p.sectorSize), " "),
       Attr(Filename, p.filename, " "), Attr(Sectors, Signed(p.sectors), "  "),
       Attr(Partition, Signed(p.partition), " "), Attr(Start, Signed(p.start), " ")]
  }

  const ERASE := "<erase "
  const PROGRAM := "<program "
  const CLOSE := "/>"

  /** The command's own line, as `fh_send_cmd` puts it between the XML header and trailer. */
  function Print(c: Command): string
    requires c.Vendor? || c.Erase? || c.Program?
  {
    match c
    case Vendor(buffer) => buffer
    case Erase(e) => ERASE + (Text(EraseAttrs(e)) + CLOSE)
    case Program(p) => PROGRAM + (Text(ProgramAttrs(p)) + CLOSE)
  }

  // ---------------------------------------------------------------------------
  // Parsing
  // ---------------------------------------------------------------------------

  const VENDOR := "vendor=\"quectel\""

  function AtoiOf(line: string, k: Key): uint32 {
    match GetValue(line, Name(k)) case Some(v) => Atoi(v) case None => 0
  }

  function TextOf(line: string, k: Key): string {
    match GetValue(line, Name(k)) case Some(v) => v case None => ""
  }

  /** The label counts only if both words appear somewhere. */
  predicate HasLabel(line: string) { Has(line, Name(Label)) && Has(line, Name(LastSector)) }

  function ParsedErase(line: string): EraseCmd {
    EraseCmd(AtoiOf(line, PagesPerBlock), AtoiOf(line, SectorSize),
             if HasLabel(line) then TextOf(line, Label) else "",
             if HasLabel(line) then AtoiOf(line, LastSector) else 0,
             match GetValue(line, Name(Sectors)) case Some(v) => Strtoul(v) case None => 0,
             AtoiOf(line, Partition), AtoiOf(line, Start))
  }

  /** A line without a file name gives a command without one; here that is the empty name. */
  function ParsedProgram(line: string): ProgramCmd {
    ProgramCmd(TextOf(line, Filename), 0, AtoiOf(line, PagesPerBlock), AtoiOf(line, SectorSize),
               if HasLabel(line) then TextOf(line, Label) else "",
               if HasLabel(line) then AtoiOf(line, LastSector) else 0,
               AtoiOf(line, Sectors), AtoiOf(line, Partition), AtoiOf(line, Start))
  }

  const VDEF_SIZE := 256

  /** What `fh_parse_xml_line` makes of a table line: nothing for a blank file name, nor for a
      line of another kind. */
  function Parse(line: string): Option<Command> {
    if Has(line, VENDOR) then Some(Vendor(if |line| < VDEF_SIZE then line else line[..VDEF_SIZE - 1]))
    else if ERASE <= line then Some(Erase(ParsedErase(line)))
    else if PROGRAM <= line then
      if GetValue(line, Name(Filename)) == Some("") then None else Some(Program(ParsedProgram(line)))
    else None
  }

  /** The parser as the source runs it: a cleared record, filled field by field. */
  method ParseErase(line: string) returns (erase: EraseCmd)
    ensures erase == ParsedErase(line)
  {
    hide GetValue, Atoi, Strtoul, Has, Name;
    erase := EraseCmd(0, 0, "", 0, 0, 0, 0);
    var pchar := GetValue(line, Name(PagesPerBlock));
    if pchar.Some? {
      erase := erase.(pagesPerBlock := Atoi(pchar.value));
    }
    pchar := GetValue(line, Name(SectorSize));
    if pchar.Some? {
      erase := erase.(sectorSize := Atoi(pchar.value));
    }
    if Has(line, Name(Label)) && Has(line, Name(LastSector)) {
      pchar := GetValue(line, Name(Label));
      if pchar.Some? {
        erase := erase.(name := pchar.value);
      }
      pchar := GetValue(line, Name(LastSector));
      if pchar.Some? {
        erase := erase.(lastSector := Atoi(pchar.value));
      }
    }
    pchar := GetValue(line, Name(Sectors));
    if pchar.Some? {
      erase := erase.(sectors := Strtoul(pchar.value));
    }
    pchar := GetValue(line, Name(Partition));
    if pchar.Some? {
      erase := erase.(partition := Atoi(pchar.value));
    }
    pchar := GetValue(line, Name(Start));
    if pchar.Some? {
      erase := erase.(start := Atoi(pchar.value));
    }
  }

  method ParseProgram(line: string) returns (program: Option<ProgramCmd>)
    ensures program == if GetValue(line, Name(Filename)) == Some("") then None else Some(ParsedProgram(line))
  {
    hide GetValue, Atoi, Has, Name;
    var p := ProgramCmd("", 0, 0, 0, "", 0, 0, 0, 0);
    var pchar := GetValue(line, Name(Filename));
    if pchar.Some? {
      p := p.(filename := pchar.value);
      if p.filename == "" {
        return None;
      }
    }
    pchar := GetValue(line, Name(PagesPerBlock));
    if pchar.Some? {
      p := p.(pagesPerBlock := Atoi(pchar.value));
    }
    pchar := GetValue(line, Name(SectorSize));
    if pchar.Some? {
      p := p.(sectorSize := Atoi(pchar.value));
    }
    if Has(line, Name(Label)) && Has(line, Name(LastSector)) {
      pchar := GetValue(line, Name(Label));
      if pchar.Some? {
        p := p.(name := pchar.value);
      }
      pchar := GetValue(line, Name(LastSector));
      if pchar.Some? {
        p := p.(lastSector := Atoi(pchar.value));
      }
    }
    pchar := GetValue(line, Name(Sectors));
    if pchar.Some? {
      p := p.(sectors := Atoi(pchar.value));
    }
    pchar := GetValue(line, Name(Partition));
    if pchar.Some? {
      p := p.(partition := Atoi(pchar.value));
    }
    pchar := GetValue(line, Name(Start));
    if pchar.Some? {
      p := p.(start := Atoi(pchar.value));
    }
    program := Some(p);
  }

  /** `fh_parse_xml_line` on a line of the table. */
  method ParseXmlLine(line: string) returns (cmd: Option<Command>)
    ensures cmd == Parse(line)
  {
    hide GetValue, Has, ParsedErase, ParsedProgram, Name;
    if Has(line, VENDOR) {
      cmd := Some(Vendor(if |line| < VDEF_SIZE then line else line[..VDEF_SIZE - 1]));
    } else if ERASE <= line {
      var erase := ParseErase(line);
      cmd := Some(Erase(erase));
    } else if PROGRAM <= line {
      var program := ParseProgram(line);
      cmd := if program.Some? then Some(Program(program.value)) else None;
    } else {
      cmd := None;
    }
  }

  // ---------------------------------------------------------------------------
  // No name inside another
  // ---------------------------------------------------------------------------

  predicate HasPair(s: string, x: char, y: char) {
    exists i {:trigger s[i]} :: 0 <= i < |s| - 1 && s[i] == x && s[i + 1] == y
  }

  /** Two neighbouring characters that tell a name from all others, and where they stand. */
  function Mark(k: Key): (nat, char, char) {
    match k
    case PagesPerBlock => (1, 'A', 'G')
    case SectorSize => (9, 'Z', 'E')
    case Filename => (0, 'f', 'i')
    case Label => (1, 'a', 'b')
    case LastSector => (1, 'a', 's')
    case Sectors => (2, 'm', '_')
    case Partition => (1, 'h', 'y')
    case Start => (1, 't', 'a')
  }

  lemma MarkIn(k: Key)
    ensures Mark(k).0 + 1 < |Name(k)| && Name(k)[Mark(k).0] == Mark(k).1 && Name(k)[Mark(k).0 + 1] == Mark(k).2
  {
    match k
    case PagesPerBlock => assert Name(k) == "PAGES_PER_BLOCK";
    case SectorSize => assert Name(k) == "SECTOR_SIZE_IN_BYTES";
    case Filename => assert Name(k) == "filename";
    case Label => assert Name(k) == "label";
    case LastSector => assert Name(k) == "last_sector";
    case Sectors => assert Name(k) == "num_partition_sectors";
    case Partition => assert Name(k) == "physical_partition_number";
    case Start => assert Name(k) == "start_sector";
  }

  lemma NameBringsPair(s: string, k: Key)
    requires Occurs(s, Name(k))
    ensures HasPair(s, Mark(k).1, Mark(k).2)
  {
    MarkIn(k);
    hide Mark, Name;
    var i: nat :| i <= |s| && At(s, Name(k), i);
    var at := i + Mark(k).0;
    assert s[at] == Name(k)[Mark(k).0] && s[at + 1] == Name(k)[Mark(k).0 + 1];
  }

  lemma MarkPages(a: Key) requires a != PagesPerBlock ensures !HasPair(Name(a), 'A', 'G') {}
  lemma MarkSectorSize(a: Key) requires a != SectorSize ensures !HasPair(Name(a), 'Z', 'E') {}
  lemma MarkFilename(a: Key) requires a != Filename ensures !HasPair(Name(a), 'f', 'i') {}
  lemma MarkLabel(a: Key) requires a != Label ensures !HasPair(Name(a), 'a', 'b') {}
  lemma MarkLast(a: Key) requires a != LastSector ensures !HasPair(Name(a), 'a', 's') {}
  lemma MarkSectors(a: Key) requires a != Sectors ensures !HasPair(Name(a), 'm', '_') {}
  lemma MarkPartition(a: Key) requires a != Partition ensures !HasPair(Name(a), 'h', 'y') {}
  lemma MarkStart(a: Key) requires a != Start ensures !HasPair(Name(a), 't', 'a') {}
  lemma MarkVendor(a: Key) ensures !HasPair(Name(a), 'v', 'e') {}

  /** No attribute name contains another: the first-occurrence search cannot be misled by a
      name. */
  lemma NamesApart(a: Key, k: Key)
    requires a != k
    ensures !Occurs(Name(a), Name(k))
  {
    hide Name, Occurs;
    match k {
      case PagesPerBlock => MarkPages(a);
      case SectorSize => MarkSectorSize(a);
      case Filename => MarkFilename(a);
      case Label => MarkLabel(a);
      case LastSector => MarkLast(a);
      case Sectors => MarkSectors(a);
      case Partition => MarkPartition(a);
      case Start => MarkStart(a);
    }
    if Occurs(Name(a), Name(k)) {
      NameBringsPair(Name(a), k);
    }
  }

  // ---------------------------------------------------------------------------
  // Searching past what does not match
  // ---------------------------------------------------------------------------

  /** No occurrence of `key` starts within the first part. */
  ghost predicate SkipsOver(s: string, tail: string, key: string) {
    forall j: nat :: j < |s| ==> !At(s + tail, key, j)
  }

  lemma SkipBoth(a: string, b: string, tail: string, key: string)
    requires SkipsOver(a, b + tail, key) && SkipsOver(b, tail, key)
    ensures SkipsOver(a + b, tail, key)
  {
    assert (a + b) + tail == a + (b + tail);
    forall j: nat | |a| <= j < |a| + |b| ensures !At((a + b) + tail, key, j) {
      AtShift(a, b + tail, key, j - |a|);
    }
  }

  lemma AtShift(a: string, b: string, key: string, j: nat)
    ensures At(a + b, key, |a| + j) == At(b, key, j)
  {
    if j + |key| <= |b| {
      assert (a + b)[|a| + j..|a| + j + |key|] == b[j..j + |key|];
    }
  }

  /** A stretch without the key that ends in a character foreign to the key. */
  lemma SkipStretch(s: string, d: char, tail: string, key: string)
    requires d !in key && key != [] && !Occurs(s, key)
    ensures SkipsOver(s + [d], tail, key)
  {
    var all := s + [d] + tail;
    forall j: nat | j < |s| + 1 ensures !At(all, key, j) {
      if j + |key| <= |s| {
        assert all[j..j + |key|] == s[j..j + |key|];
        assert !At(s, key, j);
      } else if j + |key| <= |all| {
        assert all[j..j + |key|][|s| - j] == d;
      }
    }
  }

  function Shifted(r: Option<nat>, n: nat): Option<nat> {
    match r case Some(i) => Some(n + i) case None => None
  }

  lemma FindLater(a: string, b: string, key: string, from: nat)
    ensures Find(a + b, key, |a| + from) == Shifted(Find(b, key, from), |a|)
    decreases |b| - from
  {
    AtShift(a, b, key, from);
    if from + |key| <= |b| && !At(b, key, from) {
      FindLater(a, b, key, from + 1);
    }
  }

  lemma FindNotBefore(s: string, key: string, from: nat, to: nat)
    requires from <= to && forall j: nat :: from <= j < to ==> !At(s, key, j)
    ensures Find(s, key, from) == Find(s, key, to)
    decreases if from < to then to - from else 0
  {
    if from < to {
      FindNotBefore(s, key, from + 1, to);
    }
  }

  lemma FindShift(a: string, b: string, key: string)
    requires SkipsOver(a, b, key)
    ensures Find(a + b, key, 0) == Shifted(Find(b, key, 0), |a|)
  {
    FindNotBefore(a + b, key, 0, |a|);
    FindLater(a, b, key, 0);
  }

  /** What does not hold the key does not change the value that is found. */
  lemma ValueShift(a: string, b: string, key: string)
    requires SkipsOver(a, b, key)
    ensures GetValue(a + b, key) == GetValue(b, key) && Has(a + b, key) == Has(b, key)
  {
    hide Find, SkipsOver, ValueAt;
    FindShift(a, b, key);
    var r := Find(b, key, 0);
    if r.Some? {
      assert (a + b)[|a| + r.value + |key|..] == b[r.value + |key|..];
    }
  }

  /** An occurrence in the first part is the first in the whole. */
  lemma FindPrefix(a: string, b: string, key: string)
    requires Has(a, key)
    ensures Find(a + b, key, 0) == Find(a, key, 0)
  {
    var i := Find(a, key, 0).value;
    forall j: nat | j <= i ensures At(a + b, key, j) == At(a, key, j) {
      assert (a + b)[j..j + |key|] == a[j..j + |key|];
    }
    FindNotBefore(a + b, key, 0, i);
  }

  lemma SliceShift(a: string, b: string, from: nat, to: nat)
    requires from <= to <= |b|
    ensures (a + b)[|a| + from..|a| + to] == b[from..to]
  {
  }
}
