/** What becomes of erase and program commands that are printed and read back: the search for
    an attribute stops at the first occurrence of its name, which may lie inside a label or a
    file name. */
module FirehoseRoundTrip {
  import opened FirehoseCommands
  import opened FirehoseXml
  import opened Options
  import opened Sequences

  // ---------------------------------------------------------------------------
  // Searching through attributes
  // ---------------------------------------------------------------------------

  ghost predicate Blank(gap: string) { gap != "" && forall i :: 0 <= i < |gap| ==> gap[i] == ' ' }

  ghost predicate Plain(a: Attr) { '"' !in a.value && Blank(a.gap) }

  lemma HasIsOccurs(s: string, key: string)
    ensures Has(s, key) <==> Occurs(s, key)
  {
  }

  lemma NameIsLong(k: Key) ensures |Name(k)| >= 5 {}

  predicate Letter(c: char) { 'A' <= c <= 'Z' || c == '_' || 'a' <= c <= 'z' }

  lemma NameHasLetters(k: Key)
    ensures forall c :: c in Name(k) ==> Letter(c)
  {
  }

  lemma NameIsPlain(k: Key)
    ensures |Name(k)| >= 5 && '=' !in Name(k) && '"' !in Name(k) && ' ' !in Name(k) && '>' !in Name(k)
  {
    hide Name;
    NameIsLong(k);
    NameHasLetters(k);
  }

  lemma SkipGap(gap: string, tail: string, k: Key)
    requires Blank(gap)
    ensures SkipsOver(gap, tail, Name(k))
  {
    NameIsPlain(k);
    hide Name;
    forall j: nat | j < |gap| ensures !At(gap + tail, Name(k), j) {
      if j + |Name(k)| <= |gap + tail| {
        assert (gap + tail)[j..j + |Name(k)|][0] == ' ';
      }
    }
  }

  /** An attribute of another name, without the key in its value, is passed over. */
  lemma SkipAttr(a: Attr, tail: string, k: Key)
    requires a.key != k && Plain(a) && !Has(a.value, Name(k))
    ensures SkipsOver(AttrText(a), tail, Name(k))
  {
    NameIsPlain(k);
    HasIsOccurs(a.value, Name(k));
    hide Name, SkipsOver, Blank;
    var key := Name(k);
    SkipGap(a.gap, tail, k);
    SkipStretch(a.value, '"', a.gap + tail, key);
    SkipBoth(a.value + "\"", a.gap, tail, key);
    SkipOpening(a, a.value + "\"" + a.gap + tail, k);
    SkipBoth(Opening(a), a.value + "\"" + a.gap, tail, key);
    assert AttrText(a) == Opening(a) + (a.value + "\"" + a.gap);
  }

  function Opening(a: Attr): string { Name(a.key) + "=\"" }

  lemma SkipOpening(a: Attr, tail: string, k: Key)
    requires a.key != k
    ensures SkipsOver(Opening(a), tail, Name(k))
  {
    NamesApart(a.key, k);
    NameIsPlain(k);
    hide Name, SkipsOver;
    var key, name := Name(k), Name(a.key);
    assert !Occurs("", key);
    SkipStretch("", '"', tail, key);
    assert "" + ['"'] == "\"";
    SkipStretch(name, '=', "\"" + tail, key);
    SkipBoth(name + "=", "\"", tail, key);
    assert Opening(a) == (name + "=") + "\"";
  }

  /** The closing quote is the first one after a value without quotes. */
  lemma QuoteEnds(line: string, from: nat, value: string)
    requires '"' !in value && from + |value| < |line|
    requires line[from..from + |value|] == value && line[from + |value|] == '"'
    ensures Find(line, "\"", from) == Some(from + |value|)
  {
    var end := from + |value|;
    forall j: nat | from <= j < end ensures !At(line, "\"", j) {
      assert line[j] == value[j - from];
      assert line[j..j + 1] == [line[j]];
    }
    FindNotBefore(line, "\"", from, end);
    assert line[end..end + 1] == "\"";
  }

  lemma KeyHere(key: string, rest: string)
    ensures Find(key + rest, key, 0) == Some(0)
  {
    assert (key + rest)[0..0 + |key|] == key;
  }

  lemma ValueAtQuoted(value: string, after: string)
    requires '"' !in value
    ensures ValueAt("=\"" + (value + ("\"" + after))) == Some(value)
  {
    hide Find;
    var text := "=\"" + (value + ("\"" + after));
    SliceShift("=\"", value + ("\"" + after), 0, |value|);
    assert text[2..2 + |value|] == value && text[2 + |value|] == '"';
    QuoteEnds(text, 2, value);
  }

  lemma AttrLine(a: Attr, tail: string)
    ensures AttrText(a) + tail == Name(a.key) + ("=\"" + (a.value + ("\"" + (a.gap + tail))))
    ensures AttrText(a) + tail == Opening(a) + (a.value + ("\"" + (a.gap + tail)))
  {
    hide Name;
  }

  /** An attribute of the right name at the front gives its value. */
  lemma ValueHere(a: Attr, tail: string)
    requires '"' !in a.value
    ensures GetValue(AttrText(a) + tail, Name(a.key)) == Some(a.value) && Has(AttrText(a) + tail, Name(a.key))
  {
    hide Name, Find, At, AttrText, ValueAt;
    var key := Name(a.key);
    var text := "=\"" + (a.value + ("\"" + (a.gap + tail)));
    AttrLine(a, tail);
    KeyHere(key, text);
    assert (key + text)[0 + |key|..] == text;
    ValueAtQuoted(a.value, a.gap + tail);
  }

  /** What is read after the rest `r` of a value, its closing quote, a gap and a next name. */
  lemma ValueAtRest(r: string, gap: string, name: string, after: string)
    requires '"' !in r && Blank(gap) && '"' !in name
    ensures ValueAt(r + ("\"" + (gap + (name + ("=\"" + after)))))
            == if |r| == 1 then Some(gap + name + "=") else if r != "" && r[0] == '=' then Some(r[2..]) else None
  {
    hide Find;
    var rest := gap + (name + ("=\"" + after));
    var text := r + ("\"" + rest);
    if r == "" {
      assert text[0] == '"' && text[1] == rest[0] == gap[0];
    } else if |r| == 1 {
      var found := gap + name + "=";
      assert text == r + "\"" + found + "\"" + after;
      assert text[1] == '"' && text[2..2 + |found|] == found && text[2 + |found|] == '"';
      QuoteEnds(text, 2, found);
    } else {
      assert text[0] == r[0] && text[1] == r[1] && r[1] in r;
      if r[0] == '=' {
        assert text[2..2 + |r[2..]|] == r[2..] && text[2 + |r[2..]|] == '"';
        QuoteEnds(text, 2, r[2..]);
      }
    }
  }

  /** A search that stops inside a value of another attribute. */
  lemma ValueInside(a: Attr, tail: string, k: Key)
    requires a.key != k && Plain(a) && Has(a.value, Name(k))
    ensures GetValue(AttrText(a) + tail, Name(k)) == ValueAt(AfterKey(a.value, k) + ("\"" + (a.gap + tail)))
    ensures Has(AttrText(a) + tail, Name(k))
  {
    var key, rest := Name(k), "\"" + (a.gap + tail);
    AttrLine(a, tail);
    hide Name, Find, AttrText, ValueAt, SkipsOver, Opening, Plain, GetValue, AfterKey, Has;
    SkipOpening(a, a.value + rest, k);
    ValueShift(Opening(a), a.value + rest, key);
    ValueWithin(a.value, rest, k);
  }

  lemma ValueWithin(value: string, rest: string, k: Key)
    requires Has(value, Name(k))
    ensures GetValue(value + rest, Name(k)) == ValueAt(AfterKey(value, k) + rest) && Has(value + rest, Name(k))
  {
    hide Name, Find, ValueAt;
    var i := Find(value, Name(k), 0).value;
    FindPrefix(value, rest, Name(k));
    assert (value + rest)[i + |Name(k)|..] == value[i + |Name(k)|..] + rest;
  }

  lemma MisreadInText(a: Attr, next: seq<Attr>, tail: string, k: Key)
    requires a.key != k && Plain(a) && Has(a.value, Name(k)) && next != []
    ensures var line := AttrText(a) + (Text(next) + tail);
            GetValue(line, Name(k)) == Misread(a, next, k) && Has(line, Name(k))
  {
    var name := Name(next[0].key);
    var after := next[0].value + "\"" + next[0].gap + Text(next[1..]) + tail;
    NameIsPlain(next[0].key);
    NextText(next, tail);
    ValueInside(a, Text(next) + tail, k);
    RestHasNoQuote(a, k);
    hide Name, Find, AttrText, Text, ValueAt, Has, Blank, GetValue;
    ValueAtRest(AfterKey(a.value, k), a.gap, name, after);
  }

  lemma RestHasNoQuote(a: Attr, k: Key)
    requires Plain(a) && Has(a.value, Name(k))
    ensures '"' !in AfterKey(a.value, k)
  {
  }

  lemma NextText(attrs: seq<Attr>, tail: string)
    requires attrs != []
    ensures Text(attrs) + tail
            == Name(attrs[0].key) + ("=\"" + (attrs[0].value + "\"" + attrs[0].gap + Text(attrs[1..]) + tail))
  {
    TextStep(attrs);
    var a := attrs[0];
    Regroup(Name(a.key), "=\"", a.value, "\"", a.gap, Text(attrs[1..]), tail);
  }

  lemma Regroup(n: string, q: string, v: string, c: string, g: string, m: string, t: string)
    ensures (n + q + v + c + g) + m + t == n + (q + (v + c + g + m + t))
  {
  }

  lemma TextStep(attrs: seq<Attr>)
    requires attrs != []
    ensures Text(attrs) == AttrText(attrs[0]) + Text(attrs[1..])
  {
  }

  /** All values without quotes, and the last without any name, as a number is. */
  ghost predicate PlainAttrs(attrs: seq<Attr>) {
    && (forall i :: 0 <= i < |attrs| ==> Plain(attrs[i]))
    && (attrs != [] ==> NoKeys(attrs[|attrs| - 1].value))
  }

  ghost predicate NoKeys(s: string) { forall k: Key :: !Has(s, Name(k)) }

  /** One attribute of the search. */
  lemma ValueStep(a: Attr, next: seq<Attr>, tail: string, k: Key)
    requires Plain(a) && (next == [] ==> NoKeys(a.value))
    ensures var line, rest := AttrText(a) + (Text(next) + tail), Text(next) + tail;
            && GetValue(line, Name(k)) == (if a.key == k then Some(a.value)
                                           else if Has(a.value, Name(k)) then Misread(a, next, k)
                                           else GetValue(rest, Name(k)))
            && Has(line, Name(k)) == (a.key == k || Has(a.value, Name(k)) || Has(rest, Name(k)))
  {
    hide GetValue, Has, Name, AttrText, Blank, Misread, Text;
    if a.key == k {
      ValueHere(a, Text(next) + tail);
    } else if Has(a.value, Name(k)) {
      MisreadInText(a, next, tail, k);
    } else {
      SkipAttr(a, Text(next) + tail, k);
      ValueShift(AttrText(a), Text(next) + tail, Name(k));
    }
  }

  lemma PlainTail(attrs: seq<Attr>)
    requires PlainAttrs(attrs) && attrs != []
    ensures Plain(attrs[0]) && PlainAttrs(attrs[1..]) && (attrs[1..] == [] ==> NoKeys(attrs[0].value))
  {
    hide Plain, NoKeys;
  }

  lemma AttrThenRest(attrs: seq<Attr>, tail: string)
    requires attrs != []
    ensures Text(attrs) + tail == AttrText(attrs[0]) + (Text(attrs[1..]) + tail)
  {
    TextStep(attrs);
    hide *;
    Assoc(AttrText(attrs[0]), Text(attrs[1..]), tail);
  }

  /** The search in the text of a list is the search in the list. */
  lemma {:induction false} ValueAmong(attrs: seq<Attr>, tail: string, k: Key)
    requires PlainAttrs(attrs)
    ensures GetValue(Text(attrs) + tail, Name(k))
            == if Present(attrs, k) then LookUp(attrs, k) else GetValue(tail, Name(k))
    ensures Has(Text(attrs) + tail, Name(k)) == (Present(attrs, k) || Has(tail, Name(k)))
  {
    if attrs == [] {
      assert Text(attrs) + tail == tail;
    } else {
      hide GetValue, Has, Name, AttrText, Misread, Text, PlainAttrs, Plain, NoKeys;
      PlainTail(attrs);
      AttrThenRest(attrs, tail);
      ValueStep(attrs[0], attrs[1..], tail, k);
      ValueAmong(attrs[1..], tail, k);
    }
  }

  // ---------------------------------------------------------------------------
  // The vendor mark
  // ---------------------------------------------------------------------------

  lemma NoVendorInName(k: Key, j: nat)
    requires j + 6 <= |Name(k)|
    ensures Name(k)[j..j + 6] != "vendor"
  {
    MarkVendor(k);
    hide Name;
    var part := Name(k)[j..j + 6];
    assert part[0] == Name(k)[j] && part[1] == Name(k)[j + 1];
    assert "vendor"[0] == 'v' && "vendor"[1] == 'e';
  }

  lemma VendorAt(s: string, j: nat)
    requires At(s, VENDOR, j)
    ensures j + 16 <= |s| && s[j..j + 6] == "vendor" && s[j] == 'v' && s[j + 7] == '"' && s[j + 8] == 'q'
    ensures forall i :: j <= i < j + 7 ==> s[i] != '"'
  {
    var m := s[j..j + |VENDOR|];
    assert m == VENDOR && |VENDOR| == 16;
    assert forall i :: 0 <= i < 16 ==> s[j + i] == m[i];
    assert s[j..j + 6] == m[..6] == "vendor";
  }

  /** The mark of a vendor line has a quote within; values have none, and no name ends like it. */
  lemma SkipVendor(a: Attr, tail: string)
    requires Plain(a)
    ensures SkipsOver(AttrText(a), tail, VENDOR)
  {
    NameIsPlain(a.key);
    var name := Name(a.key);
    var n, line := |name|, AttrText(a) + tail;
    var close := n + 2 + |a.value|;
    AttrLine(a, tail);
    VendorLine(a, tail);
    hide Name, AttrText, VENDOR;
    assert line[n + 1] == '"' && line[close] == '"' && line[close + 1] == ' ';
    forall j: nat | j < |AttrText(a)| && At(line, VENDOR, j) ensures false {
      VendorAt(line, j);
      if j <= n {
        NotInName(a.key, line, j);
      }
    }
  }

  lemma NotInName(k: Key, line: string, j: nat)
    requires |Name(k)| <= |line| && line[..|Name(k)|] == Name(k) && j + 6 == |Name(k)|
    ensures line[j..j + 6] != "vendor"
  {
    NoVendorInName(k, j);
    hide Name;
    assert line[j..j + 6] == line[..|Name(k)|][j..j + 6];
  }

  lemma VendorLine(a: Attr, tail: string)
    requires Plain(a)
    ensures var line, n := AttrText(a) + tail, |Name(a.key)|;
            var close := n + 2 + |a.value|;
            && close + 1 < |AttrText(a)| && line[..n] == Name(a.key) && line[n] == '=' && line[n + 1] == '"'
            && line[n + 2..close] == a.value && line[close] == '"'
            && forall i :: close < i < |AttrText(a)| ==> line[i] == ' '
  {
    hide Name;
    var line, n := AttrText(a) + tail, |Name(a.key)|;
    assert line == Name(a.key) + "=\"" + a.value + "\"" + a.gap + tail;
  }

  lemma {:induction false} SkipVendorInAll(attrs: seq<Attr>, tail: string)
    requires forall i :: 0 <= i < |attrs| ==> Plain(attrs[i])
    ensures SkipsOver(Text(attrs), tail, VENDOR)
  {
    if attrs != [] {
      hide AttrText, SkipsOver, Blank;
      SkipVendor(attrs[0], Text(attrs[1..]) + tail);
      SkipVendorInAll(attrs[1..], tail);
      SkipBoth(AttrText(attrs[0]), Text(attrs[1..]), tail, VENDOR);
    }
  }

  // ---------------------------------------------------------------------------
  // A whole line
  // ---------------------------------------------------------------------------

  /** What follows the line, such as a line end or the closing tag of the document. */
  ghost predicate NoNames(rest: string) { NoKeys(rest) && !Has(rest, VENDOR) }

  /** What `fh_send_cmd` puts behind a command holds no name. */
  lemma TrailerHasNoNames()
    ensures NoNames("\n</data>")
  {
    var trailer := "\n</data>";
    assert forall c :: c in trailer ==> c !in "PSflnpsv";
    forall k: Key ensures !Has(trailer, Name(k)) {
      NameStarts(k);
      NotWithoutStart(trailer, Name(k));
    }
    NotWithoutStart(trailer, VENDOR);
  }

  lemma NameStarts(k: Key)
    ensures |Name(k)| > 0 && Name(k)[0] in "PSflnps"
  {
    var c := match k case PagesPerBlock => 'P' case SectorSize => 'S' case Filename => 'f' case Label => 'l'
             case LastSector => 'l' case Sectors => 'n' case Partition => 'p' case Start => 's';
    assert |Name(k)| > 0 && Name(k)[0] == c;
  }

  lemma NotWithoutStart(s: string, key: string)
    requires key != "" && key[0] !in s
    ensures !Has(s, key)
  {
    HasIsOccurs(s, key);
  }

  lemma NoNamesInErase(k: Key)
    ensures !Occurs("<erase", Name(k))
  {
    if k != LastSector && Occurs("<erase", Name(k)) {
      NameBringsPair("<erase", k);
    }
  }

  lemma NoNamesInProgram(k: Key)
    ensures !Occurs("<program", Name(k))
  {
    if Occurs("<program", Name(k)) {
      NameBringsPair("<program", k);
    }
  }

  predicate IsTag(tag: string) { tag == ERASE || tag == PROGRAM }

  lemma SkipTag(tag: string, tail: string, k: Key)
    requires IsTag(tag)
    ensures SkipsOver(tag, tail, Name(k)) && SkipsOver(tag, tail, VENDOR)
  {
    NoNamesInErase(k);
    NoNamesInProgram(k);
    NameIsPlain(k);
    assert !Occurs("<erase", VENDOR) && !Occurs("<program", VENDOR) && ' ' !in VENDOR;
    hide Name, SkipsOver;
    assert "<erase" + [' '] == ERASE && "<program" + [' '] == PROGRAM;
    SkipStretch(tag[..|tag| - 1], ' ', tail, Name(k));
    SkipStretch(tag[..|tag| - 1], ' ', tail, VENDOR);
  }

  lemma SkipClose(rest: string, k: Key)
    ensures SkipsOver(CLOSE, rest, Name(k)) && SkipsOver(CLOSE, rest, VENDOR)
  {
    NameIsPlain(k);
    assert !Occurs("/", VENDOR) && '>' !in VENDOR;
    hide Name;
    assert !Occurs("/", Name(k)) && "/" + ['>'] == CLOSE;
    SkipStretch("/", '>', rest, Name(k));
    SkipStretch("/", '>', rest, VENDOR);
  }

  function Line(tag: string, attrs: seq<Attr>, rest: string): string { tag + (Text(attrs) + CLOSE) + rest }

  lemma LineParts(tag: string, attrs: seq<Attr>, rest: string)
    ensures Line(tag, attrs, rest) == tag + (Text(attrs) + (CLOSE + rest))
  {
    hide Text;
  }

  /** In a printed line the search for a key is the search in the list of attributes. */
  lemma ValueInLine(tag: string, attrs: seq<Attr>, rest: string, k: Key)
    requires IsTag(tag) && PlainAttrs(attrs) && NoNames(rest)
    ensures var line := Line(tag, attrs, rest);
            && GetValue(line, Name(k)) == (if Present(attrs, k) then LookUp(attrs, k) else None)
            && Has(line, Name(k)) == Present(attrs, k)
  {
    assert !Has(rest, Name(k)) && GetValue(rest, Name(k)) == None;
    hide GetValue, Has, Name, Text, LookUp, Present, PlainAttrs, SkipsOver, Line;
    var tail := Text(attrs) + (CLOSE + rest);
    LineParts(tag, attrs, rest);
    SkipTag(tag, tail, k);
    ValueShift(tag, tail, Name(k));
    ValueAmong(attrs, CLOSE + rest, k);
    SkipClose(rest, k);
    ValueShift(CLOSE, rest, Name(k));
  }

  lemma NoVendorLine(tag: string, attrs: seq<Attr>, rest: string)
    requires IsTag(tag) && PlainAttrs(attrs) && NoNames(rest)
    ensures !Has(Line(tag, attrs, rest), VENDOR)
  {
    hide GetValue, Has, Name, Text, SkipsOver, Line, Blank;
    var tail := Text(attrs) + (CLOSE + rest);
    LineParts(tag, attrs, rest);
    SkipTag(tag, tail, Start);
    ValueShift(tag, tail, VENDOR);
    SkipVendorInAll(attrs, CLOSE + rest);
    ValueShift(Text(attrs), CLOSE + rest, VENDOR);
    SkipClose(rest, Start);
    ValueShift(CLOSE, rest, VENDOR);
  }

  // ---------------------------------------------------------------------------
  // Searching in lists with a text among numbers
  // ---------------------------------------------------------------------------

  ghost predicate Numeric(s: string) { forall i :: 0 <= i < |s| ==> IsDigit(s[i]) || s[i] == '-' }

  lemma NumericHasNoKeys(s: string)
    requires Numeric(s)
    ensures NoKeys(s) && '"' !in s
  {
    hide Name, Has;
    forall k: Key ensures !Has(s, Name(k)) {
      HasIsOccurs(s, Name(k));
      if Occurs(s, Name(k)) {
        NameBringsPair(s, k);
      }
    }
  }

  lemma PrintedIsNumeric(v: uint32)
    ensures NoKeys(Signed(v)) && NoKeys(Decimal(v)) && '"' !in Signed(v) && '"' !in Decimal(v)
  {
    NumericHasNoKeys(Signed(v));
    NumericHasNoKeys(Decimal(v));
  }

  /** The first attribute that stops a search: of the name, or with the name in its value. */
  lemma {:induction false} LookUpAt(attrs: seq<Attr>, k: Key, i: nat)
    requires i < |attrs| && forall j :: 0 <= j < i ==> attrs[j].key != k && !Has(attrs[j].value, Name(k))
    requires attrs[i].key == k || Has(attrs[i].value, Name(k))
    ensures Present(attrs, k)
    ensures LookUp(attrs, k) == if attrs[i].key == k then Some(attrs[i].value) else Misread(attrs[i], attrs[i + 1..], k)
  {
    hide Has, Name, Misread;
    if i > 0 {
      LookUpAt(attrs[1..], k, i - 1);
      assert attrs[1..][i..] == attrs[i + 1..];
    }
  }

  lemma {:induction false} LookUpNone(attrs: seq<Attr>, k: Key)
    requires forall j :: 0 <= j < |attrs| ==> attrs[j].key != k && !Has(attrs[j].value, Name(k))
    ensures !Present(attrs, k)
  {
    hide Has, Name;
    if attrs != [] {
      LookUpNone(attrs[1..], k);
    }
  }

  /** Every value but the one at `t` is a number, and no key occurs twice. */
  ghost predicate TextAt(attrs: seq<Attr>, t: nat) {
    && t < |attrs| - 1
    && (forall i :: 0 <= i < |attrs| ==> Blank(attrs[i].gap) && '"' !in attrs[i].value)
    && (forall i :: 0 <= i < |attrs| && i != t ==> NoKeys(attrs[i].value))
    && forall i, j :: 0 <= i < j < |attrs| ==> attrs[i].key != attrs[j].key
  }

  /** What the search for the key at `p` finds: its value, unless the text stands before it and
      holds the key. */
  lemma SearchAt(tag: string, attrs: seq<Attr>, rest: string, t: nat, p: nat)
    requires IsTag(tag) && TextAt(attrs, t) && NoNames(rest) && p < |attrs|
    ensures var line, k := Line(tag, attrs, rest), attrs[p].key;
            && Has(line, Name(k))
            && GetValue(line, Name(k))
               == if t < p && Has(attrs[t].value, Name(k)) then Misread(attrs[t], attrs[t + 1..], k)
                                          else Some(attrs[p].value)
  {
    hide Has, Name, Misread, GetValue, Line, LookUp, Present, Blank, NoNames;
    var k := attrs[p].key;
    ValueInLine(tag, attrs, rest, k);
    if t < p && Has(attrs[t].value, Name(k)) {
      LookUpAt(attrs, k, t);
    } else {
      LookUpAt(attrs, k, p);
    }
  }

  /** And the search for a key that was not printed. */
  lemma SearchAbsent(tag: string, attrs: seq<Attr>, rest: string, t: nat, k: Key)
    requires IsTag(tag) && TextAt(attrs, t) && NoNames(rest) && forall i :: 0 <= i < |attrs| ==> attrs[i].key != k
    ensures var line := Line(tag, attrs, rest);
            && (Has(line, Name(k)) <==> Has(attrs[t].value, Name(k)))
            && GetValue(line, Name(k))
               == if Has(attrs[t].value, Name(k)) then Misread(attrs[t], attrs[t + 1..], k) else None
  {
    hide Has, Name, Misread, GetValue, Line, LookUp, Present, Blank, NoNames;
    ValueInLine(tag, attrs, rest, k);
    if Has(attrs[t].value, Name(k)) {
      LookUpAt(attrs, k, t);
    } else {
      LookUpNone(attrs, k);
    }
  }

  // ---------------------------------------------------------------------------
  // What a misread text amounts to
  // ---------------------------------------------------------------------------

  function Narrow(unsigned: bool, s: string): uint32 { if unsigned then Strtoul(s) else Atoi(s) }

  /** The number that is read for `k` in a text that holds the name. */
  function MisreadNumber(value: string, k: Key, unsigned: bool): uint32
    requires Has(value, Name(k))
  {
    var r := AfterKey(value, k);
    if |r| >= 2 && r[0] == '=' then Narrow(unsigned, r[2..]) else 0
  }

  /** And the text, when `next` is printed after it. */
  function MisreadText(value: string, k: Key, next: Key): string
    requires Has(value, Name(k))
  {
    var r := AfterKey(value, k);
    if |r| == 1 then " " + Name(next) + "=" else if |r| >= 2 && r[0] == '=' then r[2..] else ""
  }

  /** The field of a later key, when the text `value` is printed before it. */
  function Reread(value: string, k: Key, unsigned: bool, v: uint32): uint32 {
    if Has(value, Name(k)) then MisreadNumber(value, k, unsigned) else v
  }

  lemma NameIsNoNumber(k: Key)
    ensures Atoi(" " + Name(k) + "=") == 0 && Strtoul(" " + Name(k) + "=") == 0
  {
    var s := " " + Name(k) + "=";
    FirstLetter(k);
    hide Name;
    assert s[1..] == Name(k) + "=" && s[1] == Name(k)[0];
    assert Trimmed(s) == s[1..];
    assert DigitsFrom(s[1..], 0) == 0;
  }

  lemma FirstLetter(k: Key)
    ensures Name(k) != "" && !IsDigit(Name(k)[0]) && !IsSpace(Name(k)[0]) && Name(k)[0] != '-' && Name(k)[0] != '+'
  {
  }

  lemma MisreadIsNumber(a: Attr, next: seq<Attr>, k: Key, unsigned: bool)
    requires Has(a.value, Name(k)) && a.gap == " " && next != []
    ensures (match Misread(a, next, k) case Some(s) => Narrow(unsigned, s) case None => 0)
            == MisreadNumber(a.value, k, unsigned)
  {
    NameIsNoNumber(next[0].key);
    hide Atoi, Strtoul, Has, Name, AfterKey;
  }

  lemma MisreadIsText(a: Attr, next: seq<Attr>, k: Key)
    requires Has(a.value, Name(k)) && a.gap == " " && next != []
    ensures (match Misread(a, next, k) case Some(s) => s case None => "") == MisreadText(a.value, k, next[0].key)
  {
    hide Has, Name, AfterKey;
  }

  // ---------------------------------------------------------------------------
  // Erase commands
  // ---------------------------------------------------------------------------

  const LABEL_SIZE := 32
  const VALUE_SIZE := 64

  /** What an erase command is read back as. */
  function RereadErase(e: EraseCmd): EraseCmd {
    if Labelled(e.name, e.lastSector) then
      e.(lastSector := Reread(e.name, LastSector, false, e.lastSector),
         sectors := Reread(e.name, Sectors, true, e.sectors),
         partition := Reread(e.name, Partition, false, e.partition),
         start := Reread(e.name, Start, false, e.start))
    else if e.pagesPerBlock != 0 && e.sectorSize != 0 then e.(name := "", lastSector := 0)
    else EraseCmd(0, 0, "", 0, e.sectors, 0, e.start)
  }

  lemma Gaps()
    ensures Blank(" ") && Blank("  ") && Blank("    ")
  {
  }

  /** Where the text of an erase command stands; one without label has numbers only. */
  function EraseText(e: EraseCmd): nat { if Labelled(e.name, e.lastSector) then 2 else 0 }

  lemma EraseTextAt(e: EraseCmd)
    requires Labelled(e.name, e.lastSector) ==> '"' !in e.name
    ensures TextAt(EraseAttrs(e), EraseText(e))
  {
    hide NoKeys, Signed, Decimal, Blank;
    Gaps();
    PrintedIsNumeric(e.pagesPerBlock);
    PrintedIsNumeric(e.sectorSize);
    PrintedIsNumeric(e.lastSector);
    PrintedIsNumeric(e.sectors);
    PrintedIsNumeric(e.partition);
    PrintedIsNumeric(e.start);
  }

  function NumberOf(line: string, k: Key, unsigned: bool): uint32 {
    match GetValue(line, Name(k)) case Some(s) => Narrow(unsigned, s) case None => 0
  }

  /** The number read for the key at `p`. */
  lemma NumberAt(tag: string, attrs: seq<Attr>, rest: string, t: nat, p: nat, v: uint32, unsigned: bool)
    requires IsTag(tag) && TextAt(attrs, t) && NoNames(rest) && p < |attrs| && attrs[t].gap == " "
    requires attrs[p].value == Signed(v) || (unsigned && attrs[p].value == Decimal(v))
    ensures var line, k := Line(tag, attrs, rest), attrs[p].key;
            && Has(line, Name(k))
            && NumberOf(line, k, unsigned) == if t < p then Reread(attrs[t].value, k, unsigned, v) else v
  {
    hide Has, Name, Misread, MisreadNumber, GetValue, Line, Blank, NoNames, NoKeys, Signed, Decimal, Atoi, Strtoul;
    var k := attrs[p].key;
    SignedReads(v);
    SearchAt(tag, attrs, rest, t, p);
    if t < p && Has(attrs[t].value, Name(k)) {
      MisreadIsNumber(attrs[t], attrs[t + 1..], k, unsigned);
    }
  }

  /** What the searches in a line come to, for an erase command. */
  ghost predicate ReadsErase(line: string, r: EraseCmd) {
    && NumberOf(line, PagesPerBlock, false) == r.pagesPerBlock && NumberOf(line, SectorSize, false) == r.sectorSize
    && NumberOf(line, Sectors, true) == r.sectors && NumberOf(line, Partition, false) == r.partition
    && NumberOf(line, Start, false) == r.start
    && if HasLabel(line) then TextOf(line, Label) == r.name && NumberOf(line, LastSector, false) == r.lastSector
       else r.name == "" && r.lastSector == 0
  }

  lemma EraseIsRead(line: string, r: EraseCmd)
    requires ReadsErase(line, r)
    ensures ParsedErase(line) == r
  {
    hide HasLabel, Atoi, Strtoul, GetValue, Name;
  }

  /** The attributes of a labelled erase command, one by one. */
  lemma LabelledEntries(e: EraseCmd)
    requires Labelled(e.name, e.lastSector)
    ensures var attrs := EraseAttrs(e);
            && |attrs| == 7
            && attrs[0] == Attr(PagesPerBlock, Signed(e.pagesPerBlock), " ")
            && attrs[1] == Attr(SectorSize, Signed(e.sectorSize), " ")
            && attrs[2] == Attr(Label, e.name, " ") && attrs[3] == Attr(LastSector, Signed(e.lastSector), " ")
            && attrs[4] == Attr(Sectors, Signed(e.sectors), " ")
            && attrs[5] == Attr(Partition, Signed(e.partition), " ")
            && attrs[6] == Attr(Start, Signed(e.start), " ")
  {
    hide Signed;
  }

  lemma LabelledEraseFields(e: EraseCmd, rest: string)
    requires Labelled(e.name, e.lastSector) && '"' !in e.name && NoNames(rest)
    ensures ReadsErase(Line(ERASE, EraseAttrs(e), rest), RereadErase(e))
  {
    var attrs := EraseAttrs(e);
    EraseTextAt(e);
    LabelledEntries(e);
    hide Has, Name, GetValue, Line, NoNames, TextAt, Signed, Decimal, NumberOf, Reread, Labelled, EraseAttrs;
    NumberAt(ERASE, attrs, rest, 2, 0, e.pagesPerBlock, false);
    NumberAt(ERASE, attrs, rest, 2, 1, e.sectorSize, false);
    SearchAt(ERASE, attrs, rest, 2, 2);
    NumberAt(ERASE, attrs, rest, 2, 3, e.lastSector, false);
    NumberAt(ERASE, attrs, rest, 2, 4, e.sectors, true);
    NumberAt(ERASE, attrs, rest, 2, 5, e.partition, false);
    NumberAt(ERASE, attrs, rest, 2, 6, e.start, false);
  }

  /** Numbers have no names in them. */
  lemma NumberIsKept(v: uint32, k: Key, unsigned: bool, w: uint32)
    ensures Reread(Signed(v), k, unsigned, w) == w && Reread(Decimal(v), k, unsigned, w) == w
    ensures !Has(Signed(v), Name(k)) && !Has(Decimal(v), Name(k))
  {
    PrintedIsNumeric(v);
    hide Has, Signed, Decimal, Name;
  }

  ghost predicate AreSized(attrs: seq<Attr>, e: EraseCmd) {
    && |attrs| == 5 && attrs[0].gap == " "
    && attrs[0].key == PagesPerBlock && attrs[1].key == SectorSize && attrs[2].key == Sectors
    && attrs[3].key == Partition && attrs[4].key == Start
    && attrs[0].value == Signed(e.pagesPerBlock) && attrs[1].value == Signed(e.sectorSize)
    && attrs[2].value == Signed(e.sectors) && attrs[3].value == Signed(e.partition) && attrs[4].value == Signed(e.start)
  }

  lemma SizedAreRead(attrs: seq<Attr>, rest: string, e: EraseCmd)
    requires AreSized(attrs, e) && TextAt(attrs, 0) && NoNames(rest) && e.name == "" && e.lastSector == 0
    ensures ReadsErase(Line(ERASE, attrs, rest), e)
  {
    hide Has, Name, GetValue, Line, NoNames, TextAt, Signed, Decimal, NumberOf;
    NumberAmong(ERASE, attrs, rest, 0, e.pagesPerBlock, false, e.pagesPerBlock);
    NumberAmong(ERASE, attrs, rest, 1, e.sectorSize, false, e.pagesPerBlock);
    NumberAmong(ERASE, attrs, rest, 2, e.sectors, true, e.pagesPerBlock);
    NumberAmong(ERASE, attrs, rest, 3, e.partition, false, e.pagesPerBlock);
    NumberAmong(ERASE, attrs, rest, 4, e.start, false, e.pagesPerBlock);
    AbsentNumber(attrs, rest, e.pagesPerBlock, Label);
  }

  lemma SizedEraseFields(e: EraseCmd, rest: string)
    requires !Labelled(e.name, e.lastSector) && e.pagesPerBlock != 0 && e.sectorSize != 0 && NoNames(rest)
    ensures ReadsErase(Line(ERASE, EraseAttrs(e), rest), RereadErase(e))
  {
    EraseTextAt(e);
    SizedEntries(e);
    hide AreSized, TextAt, NoNames, Line, ReadsErase, EraseAttrs;
    SizedAreRead(EraseAttrs(e), rest, RereadErase(e));
  }

  lemma SizedEntries(e: EraseCmd)
    requires !Labelled(e.name, e.lastSector) && e.pagesPerBlock != 0 && e.sectorSize != 0
    ensures AreSized(EraseAttrs(e), RereadErase(e))
  {
    hide Signed, Reread;
  }

  /** Where the first attribute is a number too, every number is read as it was printed. */
  lemma NumberAmong(tag: string, attrs: seq<Attr>, rest: string, p: nat, v: uint32, unsigned: bool, w: uint32)
    requires IsTag(tag) && TextAt(attrs, 0) && NoNames(rest) && p < |attrs|
    requires attrs[0].gap == " " && (attrs[0].value == Signed(w) || attrs[0].value == Decimal(w))
    requires attrs[p].value == Signed(v) || (unsigned && attrs[p].value == Decimal(v))
    ensures NumberOf(Line(tag, attrs, rest), attrs[p].key, unsigned) == v
  {
    hide Has, Name, NumberOf, Line, NoNames, TextAt, Signed, Decimal, Reread;
    NumberAt(tag, attrs, rest, 0, p, v, unsigned);
    NumberIsKept(w, attrs[p].key, unsigned, v);
  }

  lemma BareEraseFields(e: EraseCmd, rest: string)
    requires !Labelled(e.name, e.lastSector) && (e.pagesPerBlock == 0 || e.sectorSize == 0) && NoNames(rest)
    ensures ReadsErase(Line(ERASE, EraseAttrs(e), rest), RereadErase(e))
  {
    var attrs := EraseAttrs(e);
    EraseTextAt(e);
    assert attrs[0] == Attr(Sectors, Decimal(e.sectors), " ") && attrs[1] == Attr(Start, Signed(e.start), "    ")
           && |attrs| == 2;
    hide Has, Name, GetValue, Line, NoNames, TextAt, Signed, Decimal, Reread, Labelled, EraseAttrs, NumberOf;
    AbsentNumber(attrs, rest, e.sectors, PagesPerBlock);
    AbsentNumber(attrs, rest, e.sectors, SectorSize);
    AbsentNumber(attrs, rest, e.sectors, Label);
    AbsentNumber(attrs, rest, e.sectors, Partition);
    NumberAmong(ERASE, attrs, rest, 0, e.sectors, true, e.sectors);
    NumberAmong(ERASE, attrs, rest, 1, e.start, false, e.sectors);
  }

  lemma AbsentNumber(attrs: seq<Attr>, rest: string, v: uint32, k: Key)
    requires TextAt(attrs, 0) && NoNames(rest) && (attrs[0].value == Signed(v) || attrs[0].value == Decimal(v))
    requires forall i :: 0 <= i < |attrs| ==> attrs[i].key != k
    ensures GetValue(Line(ERASE, attrs, rest), Name(k)) == None && !Has(Line(ERASE, attrs, rest), Name(k))
    ensures NumberOf(Line(ERASE, attrs, rest), k, false) == 0
  {
    hide Has, Name, GetValue, Line, NoNames, TextAt, Signed, Decimal;
    NumberIsKept(v, k, false, 0);
    SearchAbsent(ERASE, attrs, rest, 0, k);
  }

  lemma PrintedErase(e: EraseCmd, rest: string)
    ensures Print(Erase(e)) + rest == Line(ERASE, EraseAttrs(e), rest) && ERASE <= Print(Erase(e)) + rest
  {
    hide EraseAttrs, Text;
    var line := Print(Erase(e)) + rest;
    assert line[..|ERASE|] == ERASE;
  }

  /** What a printed erase command is read back as: whatever its label holds short of a quote,
      and for all values of its 32-bit fields. */
  lemma EraseRoundTrip(e: EraseCmd, rest: string)
    requires |e.name| < LABEL_SIZE && (Labelled(e.name, e.lastSector) ==> '"' !in e.name) && NoNames(rest)
    ensures Parse(Print(Erase(e)) + rest) == Some(Erase(RereadErase(e)))
  {
    PrintedErase(e, rest);
    EraseTextAt(e);
    TextIsPlain(EraseAttrs(e), EraseText(e));
    hide Print, Line, EraseAttrs, ParsedErase, RereadErase, ReadsErase, Has, TextAt, PlainAttrs, NoNames, Labelled;
    NoVendorLine(ERASE, EraseAttrs(e), rest);
    if Labelled(e.name, e.lastSector) {
      LabelledEraseFields(e, rest);
    } else if e.pagesPerBlock != 0 && e.sectorSize != 0 {
      SizedEraseFields(e, rest);
    } else {
      BareEraseFields(e, rest);
    }
    EraseIsRead(Line(ERASE, EraseAttrs(e), rest), RereadErase(e));
  }

  lemma TextIsPlain(attrs: seq<Attr>, t: nat)
    requires TextAt(attrs, t)
    ensures PlainAttrs(attrs)
  {
    hide NoKeys, Blank;
  }

  /** The formats that carry all fields of an erase command. */
  predicate CarriedErase(e: EraseCmd) {
    || (e.name != "" && e.lastSector != 0)
    || (e.name == "" && e.lastSector == 0
        && ((e.pagesPerBlock != 0 && e.sectorSize != 0)
           || (e.pagesPerBlock == 0 && e.sectorSize == 0 && e.partition == 0)))
  }

  /** A text printed before the field `v` of key `k` does not hold the name of `k`, or holds it
      so that the same number is read. */
  predicate Undisturbed(value: string, k: Key, unsigned: bool, v: uint32) {
    Has(value, Name(k)) ==> MisreadNumber(value, k, unsigned) == v
  }

  predicate LabelHarmless(e: EraseCmd) {
    && '"' !in e.name
    && Undisturbed(e.name, LastSector, false, e.lastSector) && Undisturbed(e.name, Sectors, true, e.sectors)
    && Undisturbed(e.name, Partition, false, e.partition) && Undisturbed(e.name, Start, false, e.start)
  }

  lemma ValueHasNoQuote(line: string, key: string)
    requires GetValue(line, key).Some?
    ensures '"' !in GetValue(line, key).value
  {
    var text := line[Find(line, key, 0).value + |key|..];
    var end := Find(text, "\"", 2).value;
    forall j: nat | 2 <= j < end ensures text[j] != '"' {
      assert !At(text, "\"", j);
      assert text[j..j + 1] == [text[j]];
    }
  }

  /** No line at all reads as a command whose label or file name has a quote in it. */
  lemma QuotesAreLost(line: string, c: Command)
    requires (c.Erase? && '"' in c.erase.name) || (c.Program? && ('"' in c.program.name || '"' in c.program.filename))
    ensures Parse(line) != Some(c)
  {
    hide GetValue, Has;
    if GetValue(line, Name(Label)).Some? {
      ValueHasNoQuote(line, Name(Label));
    }
    if GetValue(line, Name(Filename)).Some? {
      ValueHasNoQuote(line, Name(Filename));
    }
  }

  /** An erase command survives printing and reading exactly if its format carries it and its
      label, when it is printed, has no quote and no name of a later field that is misread. */
  lemma EraseUnchangedIff(e: EraseCmd, rest: string)
    requires |e.name| < LABEL_SIZE && NoNames(rest)
    ensures Parse(Print(Erase(e)) + rest) == Some(Erase(e))
            <==> CarriedErase(e) && (Labelled(e.name, e.lastSector) ==> LabelHarmless(e))
  {
    hide Parse, Print, Has, MisreadNumber, NoNames;
    if Labelled(e.name, e.lastSector) && '"' in e.name {
      QuotesAreLost(Print(Erase(e)) + rest, Erase(e));
    } else {
      EraseRoundTrip(e, rest);
    }
  }

  /** The name of a later field as the label: the field is lost. */
  lemma LabelMisleads(e: EraseCmd, rest: string)
    requires e.name == Name(Start) && e.lastSector != 0 && NoNames(rest)
    ensures Parse(Print(Erase(e)) + rest) == Some(Erase(RereadErase(e))) && RereadErase(e).start == 0
  {
    NameMisreadsItself(Start);
    NameIsPlain(Start);
    NameIsShort(Start);
    hide Parse, Print, Has, MisreadNumber, Name;
    EraseRoundTrip(e, rest);
  }

  lemma NameIsShort(k: Key)
    ensures |Name(k)| < LABEL_SIZE
  {
  }

  lemma NameMisreadsItself(k: Key)
    ensures Has(Name(k), Name(k)) && MisreadNumber(Name(k), k, false) == 0
  {
    KeyHere(Name(k), "");
    hide Name;
    assert Name(k) + "" == Name(k);
  }

  /** Names that are searched before the label, or never by themselves, do no harm there. */
  lemma HarmlessLabels(e: EraseCmd, rest: string)
    requires e.name in ["vendor", "label", "PAGES_PER_BLOCK"] && e.lastSector != 0 && NoNames(rest)
    ensures Parse(Print(Erase(e)) + rest) == Some(Erase(e))
  {
    LabelsHoldNoLaterName(e.name);
    hide Parse, Print, Has;
    EraseUnchangedIff(e, rest);
  }

  lemma LabelsHoldNoLaterName(s: string)
    requires s in ["vendor", "label", "PAGES_PER_BLOCK"]
    ensures |s| < LABEL_SIZE && '"' !in s
    ensures !Has(s, Name(LastSector)) && !Has(s, Name(Sectors)) && !Has(s, Name(Partition)) && !Has(s, Name(Start))
  {
    forall k | k in [LastSector, Sectors, Partition, Start] ensures !Has(s, Name(k)) {
      HasIsOccurs(s, Name(k));
      if s == "PAGES_PER_BLOCK" {
        NamesApart(PagesPerBlock, k);
      } else if s == "label" {
        NamesApart(Label, k);
      }
    }
  }

  // ---------------------------------------------------------------------------
  // Program commands
  // ---------------------------------------------------------------------------

  /** Whether a read-back program command has a label: its own, or one by mistake. */
  predicate LabelIsRead(p: ProgramCmd) {
    Labelled(p.name, p.lastSector) || (Has(p.filename, Name(Label)) && Has(p.filename, Name(LastSector)))
  }

  /** The number of a key that is printed behind file name and label. */
  function RereadBehind(p: ProgramCmd, k: Key, v: uint32): uint32 {
    if Has(p.filename, Name(k)) then MisreadNumber(p.filename, k, false)
    else if Labelled(p.name, p.lastSector) then Reread(p.name, k, false, v)
    else v
  }

  function RereadLabel(p: ProgramCmd): string {
    if !LabelIsRead(p) then ""
    else if Has(p.filename, Name(Label)) then
      MisreadText(p.filename, Label, if Labelled(p.name, p.lastSector) then Label else Sectors)
    else p.name
  }

  /** What a program command is read back as. */
  function RereadProgram(p: ProgramCmd): ProgramCmd {
    p.(filesz := 0, name := RereadLabel(p),
       lastSector := if LabelIsRead(p) then RereadBehind(p, LastSector, p.lastSector) else 0,
       sectors := RereadBehind(p, Sectors, p.sectors), partition := RereadBehind(p, Partition, p.partition),
       start := RereadBehind(p, Start, p.start))
  }

  /** Every value but those at 2 and at `u` is a number, and no key occurs twice. */
  ghost predicate TwoTextsAt(attrs: seq<Attr>, u: nat) {
    && 2 <= u < |attrs| - 1
    && (forall i :: 0 <= i < |attrs| ==> Blank(attrs[i].gap) && '"' !in attrs[i].value)
    && (forall i :: 0 <= i < |attrs| && i != 2 && i != u ==> NoKeys(attrs[i].value))
    && forall i, j :: 0 <= i < j < |attrs| ==> attrs[i].key != attrs[j].key
  }

  lemma TwoTextsPlain(attrs: seq<Attr>, u: nat)
    requires TwoTextsAt(attrs, u)
    ensures PlainAttrs(attrs)
  {
    hide NoKeys, Blank;
  }

  /** The search past two texts. */
  lemma SearchPast(tag: string, attrs: seq<Attr>, rest: string, u: nat, p: nat)
    requires IsTag(tag) && TwoTextsAt(attrs, u) && NoNames(rest) && p < |attrs|
    ensures var line, k := Line(tag, attrs, rest), attrs[p].key;
            && Has(line, Name(k))
            && GetValue(line, Name(k)) == if 2 < p && Has(attrs[2].value, Name(k)) then Misread(attrs[2], attrs[3..], k)
                                          else if u < p && Has(attrs[u].value, Name(k)) then
                                            Misread(attrs[u], attrs[u + 1..], k)
                                          else Some(attrs[p].value)
  {
    hide Has, Name, Misread, GetValue, Line, LookUp, Present, Blank, NoNames;
    TwoTextsPlain(attrs, u);
    var k := attrs[p].key;
    ValueInLine(tag, attrs, rest, k);
    if 2 < p && Has(attrs[2].value, Name(k)) {
      LookUpAt(attrs, k, 2);
    } else if u < p && Has(attrs[u].value, Name(k)) {
      LookUpAt(attrs, k, u);
    } else {
      LookUpAt(attrs, k, p);
    }
  }

  lemma NumberPast(tag: string, attrs: seq<Attr>, rest: string, u: nat, p: nat, v: uint32)
    requires IsTag(tag) && TwoTextsAt(attrs, u) && NoNames(rest) && p < |attrs| && attrs[2].gap == attrs[u].gap == " "
    requires attrs[p].value == Signed(v)
    ensures var line, k := Line(tag, attrs, rest), attrs[p].key;
            && Has(line, Name(k))
            && NumberOf(line, k, false)
               == if 2 < p && Has(attrs[2].value, Name(k)) then MisreadNumber(attrs[2].value, k, false)
                                           else if u < p then Reread(attrs[u].value, k, false, v)
                                           else v
  {
    hide Has, Name, Misread, MisreadNumber, GetValue, Line, Blank, NoNames, NoKeys, Signed, Atoi, Strtoul;
    var k := attrs[p].key;
    SignedReads(v);
    SearchPast(tag, attrs, rest, u, p);
    if 2 < p && Has(attrs[2].value, Name(k)) {
      MisreadIsNumber(attrs[2], attrs[3..], k, false);
    } else if u < p && Has(attrs[u].value, Name(k)) {
      MisreadIsNumber(attrs[u], attrs[u + 1..], k, false);
    }
  }

  lemma AbsentPast(attrs: seq<Attr>, rest: string, k: Key)
    requires TwoTextsAt(attrs, 2) && NoNames(rest) && attrs[2].gap == " "
    requires forall i :: 0 <= i < |attrs| ==> attrs[i].key != k
    ensures var line, f := Line(PROGRAM, attrs, rest), attrs[2].value;
            && (Has(line, Name(k)) <==> Has(f, Name(k)))
            && (Has(f, Name(k)) ==>
                  && TextOf(line, k) == MisreadText(f, k, attrs[3].key)
                  && NumberOf(line, k, false) == MisreadNumber(f, k, false))
  {
    hide Has, Name, Misread, MisreadNumber, MisreadText, GetValue, Line, LookUp, Present, Blank, NoNames, Narrow;
    TwoTextsPlain(attrs, 2);
    ValueInLine(PROGRAM, attrs, rest, k);
    if Has(attrs[2].value, Name(k)) {
      LookUpAt(attrs, k, 2);
      MisreadIsNumber(attrs[2], attrs[3..], k, false);
      MisreadIsText(attrs[2], attrs[3..], k);
    } else {
      LookUpNone(attrs, k);
    }
  }

  /** What the searches in a line come to, for a program command. */
  ghost predicate ReadsProgram(line: string, r: ProgramCmd) {
    && GetValue(line, Name(Filename)) == Some(r.filename) && r.filesz == 0
    && NumberOf(line, PagesPerBlock, false) == r.pagesPerBlock && NumberOf(line, SectorSize, false) == r.sectorSize
    && NumberOf(line, Sectors, false) == r.sectors && NumberOf(line, Partition, false) == r.partition
    && NumberOf(line, Start, false) == r.start
    && if HasLabel(line) then TextOf(line, Label) == r.name && NumberOf(line, LastSector, false) == r.lastSector
       else r.name == "" && r.lastSector == 0
  }

  lemma ProgramIsRead(line: string, r: ProgramCmd)
    requires ReadsProgram(line, r)
    ensures ParsedProgram(line) == r && GetValue(line, Name(Filename)) == Some(r.filename)
  {
    hide HasLabel, Atoi, Strtoul, GetValue, Name;
  }

  ghost predicate AreLabelled(attrs: seq<Attr>, p: ProgramCmd) {
    && |attrs| == 8 && attrs[2].gap == attrs[3].gap == " "
    && attrs[0].key == PagesPerBlock && attrs[1].key == SectorSize && attrs[2].key == Filename && attrs[3].key == Label
    && attrs[4].key == LastSector && attrs[5].key == Sectors && attrs[6].key == Partition && attrs[7].key == Start
    && attrs[0].value == Signed(p.pagesPerBlock) && attrs[1].value == Signed(p.sectorSize)
    && attrs[2].value == p.filename && attrs[3].value == p.name && attrs[4].value == Signed(p.lastSector)
    && attrs[5].value == Signed(p.sectors) && attrs[6].value == Signed(p.partition) && attrs[7].value == Signed(p.start)
  }

  ghost predicate AreUnlabelled(attrs: seq<Attr>, p: ProgramCmd) {
    && |attrs| == 6 && attrs[2].gap == " "
    && attrs[0].key == PagesPerBlock && attrs[1].key == SectorSize && attrs[2].key == Filename
    && attrs[3].key == Sectors && attrs[4].key == Partition && attrs[5].key == Start
    && attrs[0].value == Signed(p.pagesPerBlock) && attrs[1].value == Signed(p.sectorSize)
    && attrs[2].value == p.filename
    && attrs[3].value == Signed(p.sectors) && attrs[4].value == Signed(p.partition) && attrs[5].value == Signed(p.start)
  }

  lemma LabelledProgramRead(attrs: seq<Attr>, rest: string, p: ProgramCmd)
    requires AreLabelled(attrs, p) && TwoTextsAt(attrs, 3) && NoNames(rest) && Labelled(p.name, p.lastSector)
    ensures ReadsProgram(Line(PROGRAM, attrs, rest), RereadProgram(p))
  {
    hide Has, Name, GetValue, Line, NoNames, TwoTextsAt, Signed, NumberOf, Reread, Misread, MisreadNumber,
         MisreadText, Labelled;
    NumberPast(PROGRAM, attrs, rest, 3, 0, p.pagesPerBlock);
    NumberPast(PROGRAM, attrs, rest, 3, 1, p.sectorSize);
    SearchPast(PROGRAM, attrs, rest, 3, 2);
    SearchPast(PROGRAM, attrs, rest, 3, 3);
    if Has(p.filename, Name(Label)) {
      MisreadIsText(attrs[2], attrs[3..], Label);
    }
    NumberPast(PROGRAM, attrs, rest, 3, 4, p.lastSector);
    NumberPast(PROGRAM, attrs, rest, 3, 5, p.sectors);
    NumberPast(PROGRAM, attrs, rest, 3, 6, p.partition);
    NumberPast(PROGRAM, attrs, rest, 3, 7, p.start);
  }

  lemma UnlabelledProgramRead(attrs: seq<Attr>, rest: string, p: ProgramCmd)
    requires AreUnlabelled(attrs, p) && TwoTextsAt(attrs, 2) && NoNames(rest) && !Labelled(p.name, p.lastSector)
    ensures ReadsProgram(Line(PROGRAM, attrs, rest), RereadProgram(p))
  {
    hide Has, Name, GetValue, Line, NoNames, TwoTextsAt, Signed, NumberOf, TextOf, Reread, Misread, MisreadNumber,
         MisreadText, Labelled;
    NumberPast(PROGRAM, attrs, rest, 2, 0, p.pagesPerBlock);
    NumberPast(PROGRAM, attrs, rest, 2, 1, p.sectorSize);
    SearchPast(PROGRAM, attrs, rest, 2, 2);
    NumberUnlabelled(attrs, rest, p, 3, p.sectors);
    NumberUnlabelled(attrs, rest, p, 4, p.partition);
    NumberUnlabelled(attrs, rest, p, 5, p.start);
    AbsentPast(attrs, rest, Label);
    AbsentPast(attrs, rest, LastSector);
  }

  lemma NumberUnlabelled(attrs: seq<Attr>, rest: string, p: ProgramCmd, i: nat, v: uint32)
    requires AreUnlabelled(attrs, p) && TwoTextsAt(attrs, 2) && NoNames(rest) && !Labelled(p.name, p.lastSector)
    requires 3 <= i < 6 && attrs[i].value == Signed(v)
    ensures NumberOf(Line(PROGRAM, attrs, rest), attrs[i].key, false) == RereadBehind(p, attrs[i].key, v)
  {
    hide Has, Name, GetValue, Line, NoNames, TwoTextsAt, Signed, NumberOf, MisreadNumber, Labelled;
    NumberPast(PROGRAM, attrs, rest, 2, i, v);
  }

  lemma ProgramEntries(p: ProgramCmd)
    requires '"' !in p.filename && (Labelled(p.name, p.lastSector) ==> '"' !in p.name)
    ensures if Labelled(p.name, p.lastSector) then AreLabelled(ProgramAttrs(p), p) && TwoTextsAt(ProgramAttrs(p), 3)
            else AreUnlabelled(ProgramAttrs(p), p) && TwoTextsAt(ProgramAttrs(p), 2)
  {
    hide NoKeys, Signed, Blank, Labelled;
    Gaps();
    PrintedIsNumeric(p.pagesPerBlock);
    PrintedIsNumeric(p.sectorSize);
    PrintedIsNumeric(p.lastSector);
    PrintedIsNumeric(p.sectors);
    PrintedIsNumeric(p.partition);
    PrintedIsNumeric(p.start);
  }

  lemma PrintedProgram(p: ProgramCmd, rest: string)
    ensures var line := Print(Program(p)) + rest;
            line == Line(PROGRAM, ProgramAttrs(p), rest) && PROGRAM <= line && !(ERASE <= line)
  {
    hide ProgramAttrs, Text;
    var line := Print(Program(p)) + rest;
    assert line[..|PROGRAM|] == PROGRAM && line[1] == PROGRAM[1] != ERASE[1];
  }

  /** What a printed program command is read back as; one without a file name is dropped. */
  lemma ProgramRoundTrip(p: ProgramCmd, rest: string)
    requires |p.name| < LABEL_SIZE && |p.filename| < VALUE_SIZE && NoNames(rest)
    requires '"' !in p.filename && (Labelled(p.name, p.lastSector) ==> '"' !in p.name)
    ensures Parse(Print(Program(p)) + rest) == if p.filename == "" then None else Some(Program(RereadProgram(p)))
  {
    var attrs := ProgramAttrs(p);
    var u := if Labelled(p.name, p.lastSector) then 3 else 2;
    PrintedProgram(p, rest);
    ProgramEntries(p);
    TwoTextsPlain(attrs, u);
    hide Print, Line, ProgramAttrs, ParsedProgram, ReadsProgram, Has, TwoTextsAt, AreLabelled, AreUnlabelled,
         PlainAttrs, NoNames, Labelled, GetValue, Name;
    NoVendorLine(PROGRAM, attrs, rest);
    if Labelled(p.name, p.lastSector) {
      LabelledProgramRead(attrs, rest, p);
    } else {
      UnlabelledProgramRead(attrs, rest, p);
    }
    ProgramIsRead(Line(PROGRAM, attrs, rest), RereadProgram(p));
  }

  /** A later field behind file name and label. */
  predicate KeptBehind(p: ProgramCmd, k: Key, v: uint32) {
    if Has(p.filename, Name(k)) then MisreadNumber(p.filename, k, false) == v
    else Labelled(p.name, p.lastSector) ==> Undisturbed(p.name, k, false, v)
  }

  /** No quotes, and no name in file name or label that is misread; and where no label is read
      there is none to lose. */
  predicate TextsHarmless(p: ProgramCmd) {
    && '"' !in p.filename && (Labelled(p.name, p.lastSector) ==> '"' !in p.name)
    && KeptBehind(p, Sectors, p.sectors) && KeptBehind(p, Partition, p.partition) && KeptBehind(p, Start, p.start)
    && if LabelIsRead(p) then
         && KeptBehind(p, LastSector, p.lastSector)
         && (Has(p.filename, Name(Label)) ==>
               MisreadText(p.filename, Label, if Labelled(p.name, p.lastSector) then Label else Sectors) == p.name)
       else p.name == "" && p.lastSector == 0
  }

  /** A program command survives printing and reading exactly if it has a file name and no size
      yet, and its texts are harmless. */
  lemma ProgramUnchangedIff(p: ProgramCmd, rest: string)
    requires |p.name| < LABEL_SIZE && |p.filename| < VALUE_SIZE && NoNames(rest)
    ensures Parse(Print(Program(p)) + rest) == Some(Program(p))
            <==> p.filename != "" && p.filesz == 0 && TextsHarmless(p)
  {
    hide Parse, Print, Has, MisreadNumber, MisreadText, NoNames, Name;
    if '"' in p.filename || (Labelled(p.name, p.lastSector) && '"' in p.name) {
      QuotesAreLost(Print(Program(p)) + rest, Program(p));
    } else {
      ProgramRoundTrip(p, rest);
    }
  }

  /** A labelled command whose file name holds the word `label`, not followed by a single
      character or an equals sign, loses its label. */
  lemma FileNameMisleads(p: ProgramCmd, rest: string)
    requires Labelled(p.name, p.lastSector) && |p.name| < LABEL_SIZE && |p.filename| < VALUE_SIZE && NoNames(rest)
    requires '"' !in p.filename && '"' !in p.name && Has(p.filename, Name(Label))
    requires |AfterKey(p.filename, Label)| > 1 && AfterKey(p.filename, Label)[0] != '='
    ensures Parse(Print(Program(p)) + rest) == Some(Program(RereadProgram(p))) && RereadProgram(p).name == ""
  {
    hide Parse, Print, Has, NoNames, Name, Labelled, AfterKey;
    HasNotEmpty(p.filename, Label);
    ProgramRoundTrip(p, rest);
  }

  lemma HasNotEmpty(s: string, k: Key)
    requires Has(s, Name(k))
    ensures s != ""
  {
    NameIsPlain(k);
    hide Name;
  }
}
