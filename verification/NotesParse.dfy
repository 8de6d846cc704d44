/** Reading the change log back: tools/changelog.py:11-99. */
module NotesParse {
  import opened NotesText
  import opened Options

  datatype Group = Added | Improved | Fixed

  /** The fields of one section's body, and the group that bullets go to. */
  datatype Body = Body(headline: string, summary: seq<string>, added: seq<string>, improved: seq<string>,
                       fixed: seq<string>, collapsed: string, group: Option<Group>)
  {
    function Items(g: Group): seq<string> {
      match g
      case Added => added
      case Improved => improved
      case Fixed => fixed
    }

    function WithItems(g: Group, items: seq<string>): Body {
      match g
      case Added => this.(added := items)
      case Improved => this.(improved := items)
      case Fixed => this.(fixed := items)
    }
  }

  const EMPTY: Body := Body("", [], [], [], [], "", None)

  function Title(g: Group): string {
    match g
    case Added => "New"
    case Improved => "Improved"
    case Fixed => "Fixed"
  }

  predicate Starts(s: string, prefix: string) {
    prefix <= s
  }

  predicate Ends(s: string, suffix: string) {
    |suffix| <= |s| && s[|s| - |suffix|..] == suffix
  }

  // ---- the patterns, each applied to a line without trailing white space ----

  function GroupOf(line: string): Option<Group> {
    if !Starts(line, "### ") then None
    else
      var name := DropBlanks(line[3..]);
      if name == "New" then Some(Added)
      else if name == "Improved" then Some(Improved)
      else if name == "Fixed" then Some(Fixed)
      else None
  }

  function BulletOf(line: string): Option<string> {
    if !Starts(line, "- ") || DropBlanks(line[1..]) == "" then None else Some(DropBlanks(line[1..]))
  }

  function HeadlineOf(line: string): Option<string> {
    if |line| > 4 && Starts(line, "**") && Ends(line, "**") then Some(line[2..|line| - 2]) else None
  }

  function CollapsedOf(line: string): Option<string> {
    if |line| > 2 && Starts(line, "_") && Ends(line, "_") then Some(line[1..|line| - 1]) else None
  }

  /** One line of a section's body. */
  function Step(b: Body, raw: string): Body {
    var line := RStrip(raw);
    if line == "" then b
    else if GroupOf(line).Some? then b.(group := GroupOf(line))
    else if BulletOf(line).Some? && b.group.Some? then
      b.WithItems(b.group.value, b.Items(b.group.value) + [BulletOf(line).value])
    else if b.group.Some? && b.Items(b.group.value) != [] && raw[0] in " \t" then
      var items := b.Items(b.group.value);
      b.WithItems(b.group.value, items[|items| - 1 := items[|items| - 1] + " " + LStrip(line)])
    else if HeadlineOf(line).Some? && b.headline == "" then b.(headline := HeadlineOf(line).value)
    else if CollapsedOf(line).Some? then b.(collapsed := CollapsedOf(line).value)
    else if b.group.None? then b.(summary := b.summary + [LStrip(line)])
    else b
  }

  function ReadBody(b: Body, lines: seq<string>): Body {
    if lines == [] then b else Step(ReadBody(b, lines[..|lines| - 1]), lines[|lines| - 1])
  }

  function JoinSpaced(parts: seq<string>): string {
    if parts == [] then ""
    else if |parts| == 1 then parts[0]
    else JoinSpaced(parts[..|parts| - 1]) + " " + parts[|parts| - 1]
  }

  // ---- the section header ----

  function Run(s: string, digit: bool): (n: nat)
    ensures n <= |s|
  {
    if s != "" && ((digit && '0' <= s[0] <= '9') || (!digit && IsLabel(s[0]))) then 1 + Run(s[1..], digit) else 0
  }

  predicate IsLabel(c: char) {
    '0' <= c <= '9' || 'A' <= c <= 'Z' || 'a' <= c <= 'z' || c == '.'
  }

  /** v, three numbers with points between them and, for a beta, a hyphen and a label. */
  predicate IsTag(s: string) {
    Starts(s, "v") &&
      var a := Run(s[1..], true);
      var afterA := s[1 + a..];
      a > 0 && Starts(afterA, ".") &&
        var b := Run(afterA[1..], true);
        var afterB := afterA[1 + b..];
        b > 0 && Starts(afterB, ".") &&
          var c := Run(afterB[1..], true);
          var rest := afterB[1 + c..];
          c > 0 && (rest == "" || (Starts(rest, "-") && |rest| > 1 && Run(rest[1..], false) == |rest| - 1))
  }

  predicate IsDate(s: string) {
    && |s| == 10 && s[4] == '-' && s[7] == '-'
    && forall i :: 0 <= i < 10 && i != 4 && i != 7 ==> '0' <= s[i] <= '9'
  }

  /** The number of characters before the first blank. */
  function Word(s: string): (n: nat)
    ensures n <= |s| && (n < |s| ==> s[n] == ' ')
    ensures forall k :: 0 <= k < n ==> s[k] != ' '
  {
    if s == "" || s[0] == ' ' then 0
    else
      var n := Word(s[1..]);
      assert s[..n + 1] == [s[0]] + s[1..][..n];
      n + 1
  }

  /** The next word of a header, and what follows it. */
  function NextWord(s: string): (string, string) {
    var t := DropBlanks(s);
    (t[..Word(t)], t[Word(t)..])
  }

  datatype Header = Header(tag: string, date: string, channel: string)

  function ReadHeader(line: string): Option<Header> {
    if !Starts(line, "## ") then None
    else
      var (tag, afterTag) := NextWord(line[2..]);
      var (dash, afterDash) := NextWord(afterTag);
      var (date, afterDate) := NextWord(afterDash);
      var channel := RStrip(DropBlanks(afterDate));
      if !IsTag(tag) || dash !in {"--", "\U{2014}", "\U{2013}"} || !IsDate(date) || afterDate == "" then None
      else if channel == "(beta)" then Some(Header(tag, date, "beta"))
      else if channel == "(stable)" then Some(Header(tag, date, "stable"))
      else None
  }

  // ---- sections ----

  predicate IsHeading(line: string) {
    Starts(line, "## ")
  }

  /** How many lines there are before the next heading. */
  function UntilHeading(lines: seq<string>): (n: nat)
    ensures n <= |lines|
  {
    if lines == [] || IsHeading(lines[0]) then 0 else 1 + UntilHeading(lines[1..])
  }

  datatype Section = Section(header: Header, body: Body, text: string)

  function StripNewlines(s: string): string {
    if s == "" then ""
    else if s[0] == '\n' then StripNewlines(s[1..])
    else if s[|s| - 1] == '\n' then StripNewlines(s[..|s| - 1])
    else s
  }

  /** Every section with a well-formed header, in order; what comes before the first heading is skipped. */
  function ReadSections(lines: seq<string>): seq<Section> {
    if lines == [] then []
    else if !IsHeading(lines[0]) then ReadSections(lines[1..])
    else
      var n := UntilHeading(lines[1..]);
      var body, rest := lines[1..1 + n], lines[1 + n..];
      var header := ReadHeader(lines[0]);
      if header.None? then ReadSections(rest)
      else [Section(header.value, ReadBody(EMPTY, body), StripNewlines(Join(body)))] + ReadSections(rest)
  }

  function Parse(text: string): seq<Section> {
    ReadSections(SplitLines(text))
  }

  // ---- the parser's loops ----

  /** The loop over a section's lines computes its fields. */
  method ParseBody(lines: seq<string>) returns (b: Body)
    ensures b == ReadBody(EMPTY, lines)
  {
    b := EMPTY;
    for i := 0 to |lines|
      invariant b == ReadBody(EMPTY, lines[..i])
    {
      assert lines[..i + 1][..i] == lines[..i];
      b := Step(b, lines[i]);
    }
    assert lines[..|lines|] == lines;
  }

  /** Goes from heading to heading; a section whose header is malformed is left out. */
  method ParseText(text: string) returns (sections: seq<Section>)
    ensures sections == Parse(text)
  {
    hide ReadHeader, ReadBody, StripNewlines, Join, IsHeading;
    var lines := SplitLines(text);
    sections := [];
    var at := 0;
    while at < |lines|
      invariant at <= |lines| && sections + ReadSections(lines[at..]) == ReadSections(lines)
    {
      assert lines[at..][0] == lines[at] && lines[at..][1..] == lines[at + 1..];
      if !IsHeading(lines[at]) {
        at := at + 1;
      } else {
        var end := at + 1 + UntilHeading(lines[at + 1..]);
        var header := ReadHeader(lines[at]);
        var body := lines[at + 1..end];
        assert body == lines[at + 1..][..end - at - 1] && lines[end..] == lines[at..][end - at..];
        assert lines[at..][1..end - at] == body;
        if header.Some? {
          var b := ParseBody(body);
          sections := sections + [Section(header.value, b, StripNewlines(Join(body)))];
        }
        at := end;
      }
    }
  }

  /** The first section with exactly this tag. */
  method Find(sections: seq<Section>, tag: string) returns (found: Option<Section>)
    ensures found.None? <==> forall s :: s in sections ==> s.header.tag != tag
    ensures found.Some? ==> exists i :: 0 <= i < |sections| && sections[i] == found.value && found.value.header.tag == tag
                                        && forall j :: 0 <= j < i ==> sections[j].header.tag != tag
  {
    for i := 0 to |sections|
      invariant forall j :: 0 <= j < i ==> sections[j].header.tag != tag
    {
      if sections[i].header.tag == tag {
        return Some(sections[i]);
      }
    }
    return None;
  }
}
