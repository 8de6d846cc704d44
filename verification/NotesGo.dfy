/** The installer's reader of a release's notes: installer/changelog_render.go:51-121. */
module NotesGo {
  import opened NotesText
  import opened NotesParse
  import opened NotesPrint
  import opened NotesRoundTrip

  datatype Listed = Listed(title: string, items: seq<string>)

  datatype Entry = Entry(headline: string, summary: seq<string>, groups: seq<Listed>, collapsed: string,
                         loose: seq<string>)

  const NO_ENTRY: Entry := Entry("", [], [], "", [])

  function AddItem(groups: seq<Listed>, item: string): seq<Listed>
    requires groups != []
  {
    var last := groups[|groups| - 1];
    groups[|groups| - 1 := last.(items := last.items + [item])]
  }

  function LengthenItem(groups: seq<Listed>, more: string): seq<Listed>
    requires groups != [] && groups[|groups| - 1].items != []
  {
    var last := groups[|groups| - 1];
    var n := |last.items| - 1;
    groups[|groups| - 1 := last.(items := last.items[n := last.items[n] + " " + more])]
  }

  /** One line of the notes. */
  function GoStep(e: Entry, raw: string): Entry {
    var line := GoTrim(raw);
    if line == "" then e
    else if Starts(line, "### ") then e.(groups := e.groups + [Listed(GoTrim(line[3..]), [])])
    else if Starts(line, "- ") then
      if e.groups != [] then e.(groups := AddItem(e.groups, GoTrim(line[2..])))
      else e.(loose := e.loose + [GoTrim(line[2..])])
    else if e.headline == "" && |line| > 4 && Starts(line, "**") && Ends(line, "**") then
      e.(headline := GoTrim(line[2..|line| - 2]))
    else if |line| > 2 && Starts(line, "_") && Ends(line, "_") then e.(collapsed := GoTrim(line[1..|line| - 1]))
    else if raw != "" && raw[0] in " \t" && e.groups != [] && e.groups[|e.groups| - 1].items != [] then
      e.(groups := LengthenItem(e.groups, line))
    else if e.groups == [] && e.loose == [] then e.(summary := e.summary + [line])
    else e
  }

  function GoRead(e: Entry, lines: seq<string>): Entry {
    if lines == [] then e else GoStep(GoRead(e, lines[..|lines| - 1]), lines[|lines| - 1])
  }

  function SplitNewlines(t: string): (lines: seq<string>)
    ensures lines != []
  {
    if t == "" then [""]
    else
      var rest := SplitNewlines(t[1..]);
      if t[0] == '\n' then [""] + rest else [[t[0]] + rest[0]] + rest[1..]
  }

  // ---- inline markers ----

  /** The length of the run that [^...\n]+ matches: up to the given mark or a line feed. */
  function Span(s: string, mark: char): (n: nat)
    ensures n <= |s|
  {
    if s == "" || s[0] == mark || s[0] == '\n' then 0 else 1 + Span(s[1..], mark)
  }

  /** Code spans lose their backticks and bold ones their asterisks, from the left, bold ones also inside. */
  function WithoutMarkers(s: string): string
    decreases |s|
  {
    if s == "" then ""
    else if s[0] == '`' && Span(s[1..], '`') > 0 && Starts(s[1 + Span(s[1..], '`')..], "`") then
      var n := Span(s[1..], '`');
      s[1..1 + n] + WithoutMarkers(s[n + 2..])
    else if Starts(s, "**") && Span(s[2..], '*') > 0 && Starts(s[2 + Span(s[2..], '*')..], "**") then
      var n := Span(s[2..], '*');
      WithoutMarkers(s[2..2 + n]) + WithoutMarkers(s[n + 4..])
    else [s[0]] + WithoutMarkers(s[1..])
  }

  /** Text without markers is shown as it is. */
  lemma {:induction false} NothingToRemove(s: string)
    requires '`' !in s && '*' !in s
    ensures WithoutMarkers(s) == s
  {
    if s != "" {
      assert s[0] in s;
      NothingToRemove(s[1..]);
    }
  }

  function PlainItems(items: seq<string>): seq<string> {
    seq(|items|, i requires 0 <= i < |items| => WithoutMarkers(items[i]))
  }

  function PlainGroups(groups: seq<Listed>): seq<Listed> {
    seq(|groups|, i requires 0 <= i < |groups| => Listed(groups[i].title, PlainItems(groups[i].items)))
  }

  /** The parsed entry: the summary is one text by then. */
  datatype Notes = Notes(headline: string, summary: string, groups: seq<Listed>, collapsed: string, loose: seq<string>)

  function ParseEntry(text: string): Notes {
    var e := GoRead(NO_ENTRY, SplitNewlines(text));
    Notes(WithoutMarkers(e.headline), WithoutMarkers(JoinSpaced(e.summary)), PlainGroups(e.groups),
          WithoutMarkers(e.collapsed), PlainItems(e.loose))
  }

  /** The loop over the lines computes the entry. */
  method ReadEntry(text: string) returns (notes: Notes)
    ensures notes == ParseEntry(text)
  {
    hide WithoutMarkers;
    var lines := SplitNewlines(text);
    var e := NO_ENTRY;
    for i := 0 to |lines|
      invariant e == GoRead(NO_ENTRY, lines[..i])
    {
      assert lines[..i + 1][..i] == lines[..i];
      e := GoStep(e, lines[i]);
    }
    assert lines[..|lines|] == lines;
    notes := Notes(WithoutMarkers(e.headline), WithoutMarkers(JoinSpaced(e.summary)), PlainGroups(e.groups),
                   WithoutMarkers(e.collapsed), PlainItems(e.loose));
  }

  // ---- trimming ----

  /** Texts in which Go and Python agree about white space. */
  predicate Agreed(s: string) {
    forall c :: c in s ==> !('\U{1c}' <= c <= '\U{1f}')
  }

  lemma {:induction false} SolidTrims(s: string)
    requires s == "" || (!GoSpace(s[0]) && !GoSpace(s[|s| - 1]))
    ensures GoTrim(s) == s
  {
  }

  lemma {:induction false} TrimRightKeeps(a: string, b: string)
    requires exists c :: c in b && !GoSpace(c)
    ensures GoTrimRight(a + b) == a + GoTrimRight(b) && GoTrimRight(b) != ""
  {
    hide GoSpace;
    var front := b[..|b| - 1];
    assert b == front + [b[|b| - 1]];
    assert (a + b)[..|a + b| - 1] == a + front;
    if GoSpace(b[|b| - 1]) {
      TrimRightKeeps(a, front);
    }
  }

  lemma TrimTwice(s: string)
    ensures GoTrim(GoTrimRight(s)) == GoTrim(s)
  {
  }

  lemma SomethingSolid(s: string)
    requires !Blank(s)
    ensures exists c :: c in s && !GoSpace(c)
  {
    var c :| c in s && !PySpace(c);
    assert c in s && !GoSpace(c);
  }

  lemma FrontAgrees(s: string)
    requires Agreed(s) && s != ""
    ensures Agreed(s[..|s| - 1])
  {
    var front := s[..|s| - 1];
    forall c | c in front
      ensures !('\U{1c}' <= c <= '\U{1f}')
    {
      assert c in s;
    }
  }

  lemma {:induction false} TrimAgreed(s: string)
    requires Agreed(s)
    ensures GoTrimRight(RStrip(s)) == GoTrimRight(s)
  {
    if s != "" && PySpace(s[|s| - 1]) {
      assert s[|s| - 1] in s;
      FrontAgrees(s);
      TrimAgreed(s[..|s| - 1]);
    }
  }

  // ---- one kind of line each ----

  lemma GoGroupLine(e: Entry, g: Group)
    ensures GoStep(e, "### " + Title(g)) == e.(groups := e.groups + [Listed(Title(g), [])])
  {
    var line := "### " + Title(g);
    assert line[|line| - 1] == Title(g)[|Title(g)| - 1] && line[0] == '#';
    SolidTrims(line);
    assert line[3..] == " " + Title(g) && (" " + Title(g))[1..] == Title(g);
    SolidTrims(Title(g));
    assert GoTrimRight(" " + Title(g)) == " " + Title(g);
    assert GoTrim(line[3..]) == GoTrimLeft(Title(g));
  }

  lemma GoBulletLine(e: Entry, item: string)
    requires !Blank(item) && e.groups != []
    ensures GoStep(e, "- " + item) == e.(groups := AddItem(e.groups, GoTrim(item)))
  {
    SomethingSolid(item);
    TrimRightKeeps("- ", item);
    var line := "- " + GoTrimRight(item);
    assert GoTrim("- " + item) == line;
    assert line[2..] == GoTrimRight(item);
    TrimTwice(item);
  }

  lemma GoBlankLine(e: Entry)
    ensures GoStep(e, "") == e
  {
  }

  lemma GoHeadLine(headline: string)
    requires !Blank(headline)
    ensures GoStep(NO_ENTRY, "**" + headline + "**") == NO_ENTRY.(headline := GoTrim(headline))
    ensures GoTrim(headline) != ""
  {
    var line := "**" + headline + "**";
    assert line[|line| - 1] == '*' && line[0] == '*';
    SolidTrims(line);
    assert line[2..|line| - 2] == headline && line[|line| - 2..] == "**" && headline != "";
    SolidLeft(headline);
  }

  lemma SolidLeft(s: string)
    requires !Blank(s)
    ensures GoTrim(s) != ""
  {
    SomethingSolid(s);
    TrimRightKeeps("", s);
    assert "" + s == s && "" + GoTrimRight(s) == GoTrimRight(s);
    var r := GoTrimRight(s);
    LeftKeepsEnd(r);
  }

  lemma {:induction false} LeftKeepsEnd(s: string)
    requires s != "" && !GoSpace(s[|s| - 1])
    ensures GoTrimLeft(s) != ""
  {
    hide GoSpace;
    if GoSpace(s[0]) {
      LeftKeepsEnd(s[1..]);
    }
  }

  /** The summaries that the installer's reader takes for something else. */
  predicate TakenByGo(summary: string) {
    var line := GoTrim(summary);
    Starts(line, "### ") || Starts(line, "- ") || (|line| > 2 && Starts(line, "_") && Ends(line, "_"))
  }

  lemma GoSummaryLine(e: Entry, summary: string)
    requires !Blank(summary) && e.headline != "" && e.groups == [] && e.loose == []
    ensures !TakenByGo(summary) ==> GoStep(e, summary) == e.(summary := e.summary + [GoTrim(summary)])
    ensures TakenByGo(summary) ==> GoStep(e, summary).summary == e.summary && GoStep(e, summary).headline == e.headline
  {
    hide GoTrim;
    SolidLeft(summary);
  }

  lemma GoCountLine(e: Entry, count: string)
    requires e.headline != "" && count != ""
    ensures GoStep(e, "_" + count + "_") == e.(collapsed := GoTrim(count))
  {
    var line := "_" + count + "_";
    assert line[|line| - 1] == '_' && line[0] == '_';
    SolidTrims(line);
    assert line[1..|line| - 1] == count && line[|line| - 1..] == "_";
  }
}
