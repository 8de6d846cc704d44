/** Printing a drafted entry, and the round trip through the parser: tools/draft_changelog.py:137-243. */
module NotesPrint {
  import opened Decimals
  import opened NotesText
  import opened NotesParse
  import opened Options

  datatype Draft = Draft(headline: string, summary: string, added: seq<string>, improved: seq<string>,
                         fixed: seq<string>, count: int)
  {
    function Items(g: Group): seq<string> {
      match g
      case Added => added
      case Improved => improved
      case Fixed => fixed
    }

    function Texts(): seq<string> {
      [headline, summary] + added + improved + fixed
    }
  }

  const FORBIDDEN := "\n\r[]<>`"

  /** The model's output is safe, not empty and short enough. */
  predicate Validated(d: Draft, minCount: int, maxItems: nat, maxSummary: nat) {
    && (forall t :: t in d.Texts() ==> forall c :: c in t ==> c !in FORBIDDEN)
    && !Blank(d.headline) && !Blank(d.summary)
    && |d.headline| <= 60 && |d.summary| <= maxSummary
    && |d.added| + |d.improved| + |d.fixed| <= maxItems
    && (forall g: Group, i :: 0 <= i < |d.Items(g)| ==> !Blank(d.Items(g)[i]))
    && d.count >= 0 && d.count >= minCount
  }

  function CountLine(count: nat): string {
    if count == 1 then "Plus 1 smaller fix and internal change."
    else "Plus " + Digits(count) + " smaller fixes and internal changes."
  }

  function ChannelFor(tag: string): string {
    if '-' in tag then "beta" else "stable"
  }

  function HeaderLine(tag: string, date: string): string {
    "## " + tag + " -- " + date + " (" + ChannelFor(tag) + ")"
  }

  function Bullets(items: seq<string>): seq<string> {
    if items == [] then [] else Bullets(items[..|items| - 1]) + ["- " + items[|items| - 1]]
  }

  function GroupLines(g: Group, items: seq<string>): seq<string> {
    if items == [] then [] else ["### " + Title(g)] + Bullets(items) + [""]
  }

  function CountLines(count: int): seq<string> {
    if count > 0 then ["_" + CountLine(count) + "_", ""] else []
  }

  function BodyLines(d: Draft): seq<string> {
    ["", "**" + d.headline + "**", "", d.summary, ""]
    + GroupLines(Added, d.added) + GroupLines(Improved, d.improved) + GroupLines(Fixed, d.fixed) + CountLines(d.count)
  }

  function Render(tag: string, date: string, d: Draft): string {
    RStrip(Join([HeaderLine(tag, date)] + BodyLines(d))) + "\n"
  }

  /** Grows the list of lines the way they are printed. */
  method RenderEntry(tag: string, date: string, d: Draft) returns (text: string)
    ensures text == Render(tag, date, d)
  {
    hide RStrip, Join, HeaderLine, GroupLines, CountLine;
    var lines := [HeaderLine(tag, date), "", "**" + d.headline + "**", "", d.summary, ""];
    var added := PrintGroup(Added, d.added);
    var improved := PrintGroup(Improved, d.improved);
    var fixed := PrintGroup(Fixed, d.fixed);
    lines := lines + added;
    lines := lines + improved;
    lines := lines + fixed;
    if d.count > 0 {
      lines := lines + ["_" + CountLine(d.count) + "_", ""];
    }
    LinesInOrder(HeaderLine(tag, date), d);
    text := RStrip(Join(lines)) + "\n";
  }

  lemma LinesInOrder(header: string, d: Draft)
    ensures [header, "", "**" + d.headline + "**", "", d.summary, ""] + GroupLines(Added, d.added)
            + GroupLines(Improved, d.improved) + GroupLines(Fixed, d.fixed) + CountLines(d.count)
            == [header] + BodyLines(d)
    ensures forall x: seq<string> :: x + [] == x
  {
    hide GroupLines, CountLines;
    var opening := ["", "**" + d.headline + "**", "", d.summary, ""];
    var a, b, c, e := GroupLines(Added, d.added), GroupLines(Improved, d.improved), GroupLines(Fixed, d.fixed), CountLines(d.count);
    assert [header, "", "**" + d.headline + "**", "", d.summary, ""] == [header] + opening;
    assert ([header] + opening) + a + b + c + e == [header] + (opening + a + b + c + e);
  }

  method PrintGroup(g: Group, items: seq<string>) returns (lines: seq<string>)
    ensures lines == GroupLines(g, items)
  {
    if items == [] {
      return [];
    }
    lines := ["### " + Title(g)];
    for i := 0 to |items|
      invariant lines == ["### " + Title(g)] + Bullets(items[..i])
    {
      assert items[..i + 1][..i] == items[..i];
      lines := lines + ["- " + items[i]];
    }
    assert items[..|items|] == items;
    lines := lines + [""];
  }

  // ---- reading one kind of line ----

  /** What the parser keeps of a bullet. */
  function ItemText(item: string): string {
    DropBlanks(RStrip(item))
  }

  function ItemTexts(items: seq<string>): seq<string> {
    seq(|items|, i requires 0 <= i < |items| => ItemText(items[i]))
  }

  lemma {:induction false} DropKeepsEnd(s: string)
    ensures s != "" && s[|s| - 1] != ' ' ==> DropBlanks(s) != ""
  {
    if |s| > 1 {
      DropKeepsEnd(s[1..]);
    }
  }

  lemma BulletLine(b: Body, item: string)
    requires !Blank(item)
    ensures b.group.Some? ==>
              Step(b, "- " + item) == b.WithItems(b.group.value, b.Items(b.group.value) + [ItemText(item)])
  {
    hide PySpace;
    RStripKeeps("- ", item);
    var line := "- " + RStrip(item);
    assert line[1..] == " " + RStrip(item);
    assert (" " + RStrip(item))[1..] == RStrip(item);
    EndsSolid(item);
    assert DropBlanks(line[1..]) == ItemText(item);
    assert GroupOf(line).None?;
  }

  lemma EndsSolid(item: string)
    requires !Blank(item)
    ensures RStrip(item) != "" && ItemText(item) != ""
  {
    var r := RStrip(item);
    assert r[|r| - 1] != ' ';
    DropKeepsEnd(r);
  }

  lemma GroupLine(b: Body, g: Group)
    ensures Step(b, "### " + Title(g)) == b.(group := Some(g))
  {
    var line := "### " + Title(g);
    assert line[|line| - 1] == Title(g)[|Title(g)| - 1];
    assert RStrip(line) == line;
    assert line[3..] == " " + Title(g) && (" " + Title(g))[1..] == Title(g);
    assert DropBlanks(line[3..]) == Title(g);
  }

  lemma BlankLine(b: Body)
    ensures Step(b, "") == b
  {
  }

  lemma HeadLine(headline: string)
    requires !Blank(headline)
    ensures Step(EMPTY, "**" + headline + "**") == EMPTY.(headline := headline)
  {
    var line := "**" + headline + "**";
    assert line[|line| - 1] == '*';
    assert RStrip(line) == line;
    assert line[2..|line| - 2] == headline;
    assert line[|line| - 2..] == "**";
    assert headline != "";
  }

  lemma SummaryLine(b: Body, summary: string)
    requires b.group.None? && b.headline != "" && !Blank(summary)
    ensures GroupOf(RStrip(summary)).None? && CollapsedOf(RStrip(summary)).None? ==>
              Step(b, summary) == b.(summary := b.summary + [Strip(summary)])
    ensures GroupOf(RStrip(summary)).Some? || CollapsedOf(RStrip(summary)).Some? ==>
              Step(b, summary).summary == b.summary && Step(b, summary).headline == b.headline
  {
  }

  lemma CountedLine(b: Body, count: string)
    requires b.headline != "" && count != ""
    ensures Step(b, "_" + count + "_") == b.(collapsed := count)
  {
    var line := "_" + count + "_";
    assert line[|line| - 1] == '_' && line[0] == '_' && |line| > 2;
    assert RStrip(line) == line;
    assert line[1..|line| - 1] == count;
    assert line[|line| - 1..] == "_";
    assert HeadlineOf(line).None? && GroupOf(line).None? && BulletOf(line).None?;
  }

  lemma CountIsThere(count: nat)
    ensures CountLine(count) != ""
  {
    hide Digits;
  }

  // ---- reading many lines ----

  lemma {:induction false} ReadMore(b: Body, x: seq<string>, y: seq<string>)
    ensures ReadBody(b, x + y) == ReadBody(ReadBody(b, x), y)
  {
    hide Step;
    if y == [] {
      assert x + y == x;
    } else {
      var front, last := y[..|y| - 1], y[|y| - 1];
      assert (x + y)[..|x + y| - 1] == x + front;
      ReadMore(b, x, front);
    }
  }

  lemma ReadOne(b: Body, line: string)
    ensures ReadBody(b, [line]) == Step(b, line)
  {
    hide Step;
    assert [line][..0] == [];
  }

  /** Printed bullets are read back into the open group, in order. */
  lemma {:induction false} ReadBullets(b: Body, g: Group, items: seq<string>)
    requires b.group == Some(g) && forall i :: 0 <= i < |items| ==> !Blank(items[i])
    ensures ReadBody(b, Bullets(items)) == b.WithItems(g, b.Items(g) + ItemTexts(items))
  {
    hide Step, Blank, ItemText, ReadBody;
    if items != [] {
      var front, last := items[..|items| - 1], items[|items| - 1];
      ReadBullets(b, g, front);
      var now := b.WithItems(g, b.Items(g) + ItemTexts(front));
      ReadMore(b, Bullets(front), ["- " + last]);
      ReadOne(now, "- " + last);
      BulletLine(now, last);
      assert b.Items(g) + ItemTexts(front) + [ItemText(last)] == b.Items(g) + ItemTexts(items);
    } else {
      ReadNothing(b);
      assert b.Items(g) + ItemTexts(items) == b.Items(g);
    }
  }

  function AfterGroup(b: Body, g: Group, items: seq<string>): Body {
    if items == [] then b else b.(group := Some(g)).WithItems(g, b.Items(g) + ItemTexts(items))
  }

  lemma ReadGroup(b: Body, g: Group, items: seq<string>)
    requires forall i :: 0 <= i < |items| ==> !Blank(items[i])
    ensures ReadBody(b, GroupLines(g, items)) == AfterGroup(b, g, items)
  {
    hide Step, Blank, ItemText, ReadBody;
    if items == [] {
      ReadNothing(b);
    } else {
      var title := ["### " + Title(g)];
      ReadMore(b, title + Bullets(items), [""]);
      ReadMore(b, title, Bullets(items));
      ReadOne(b, title[0]);
      GroupLine(b, g);
      ReadBullets(b.(group := Some(g)), g, items);
      ReadOne(AfterGroup(b, g, items), "");
      BlankLine(AfterGroup(b, g, items));
    }
  }

  lemma ReadNothing(b: Body)
    ensures ReadBody(b, []) == b
  {
  }

  /** The first five lines: the headline and, unless it is taken for markup, the summary. */
  lemma ReadOpening(headline: string, summary: string)
    requires !Blank(headline) && !Blank(summary)
    ensures var b := ReadBody(EMPTY, ["", "**" + headline + "**", "", summary, ""]);
            GroupOf(RStrip(summary)).None? && CollapsedOf(RStrip(summary)).None? ==>
              b == EMPTY.(headline := headline, summary := [Strip(summary)])
    ensures var b := ReadBody(EMPTY, ["", "**" + headline + "**", "", summary, ""]);
            GroupOf(RStrip(summary)).Some? || CollapsedOf(RStrip(summary)).Some? ==>
              b.summary == [] && b.headline == headline
  {
    hide Step, ReadBody, Blank;
    var h := "**" + headline + "**";
    ReadMore(EMPTY, ["", h, "", summary], [""]);
    ReadMore(EMPTY, ["", h, ""], [summary]);
    ReadMore(EMPTY, ["", h], [""]);
    ReadMore(EMPTY, [""], [h]);
    assert ["", h] == [""] + [h] && ["", h, ""] == ["", h] + [""];
    assert ["", h, "", summary] == ["", h, ""] + [summary];
    assert ["", h, "", summary, ""] == ["", h, "", summary] + [""];
    ReadOne(EMPTY, "");
    BlankLine(EMPTY);
    ReadOne(EMPTY, h);
    HeadLine(headline);
    var b := EMPTY.(headline := headline);
    ReadOne(b, "");
    BlankLine(b);
    ReadOne(b, summary);
    NotBlank(headline);
    SummaryLine(b, summary);
    ReadOne(Step(b, summary), "");
    BlankLine(Step(b, summary));
  }

  lemma NotBlank(s: string)
    requires !Blank(s)
    ensures s != ""
  {
  }

  function AfterCount(b: Body, count: int): Body {
    if count > 0 then b.(collapsed := CountLine(count)) else b
  }

  lemma ReadCount(b: Body, count: int)
    requires b.headline != ""
    ensures ReadBody(b, CountLines(count)) == AfterCount(b, count)
  {
    hide Step, ReadBody, CountLine;
    if count > 0 {
      var line := "_" + CountLine(count) + "_";
      assert [line, ""] == [line] + [""];
      ReadMore(b, [line], [""]);
      ReadOne(b, line);
      CountIsThere(count);
      CountedLine(b, CountLine(count));
      ReadOne(b.(collapsed := CountLine(count)), "");
      BlankLine(b.(collapsed := CountLine(count)));
    } else {
      ReadNothing(b);
    }
  }

  /** The fields a reader gets, the parser's own state aside. */
  ghost predicate Shows(b: Body, d: Draft) {
    && b.headline == d.headline && b.summary == [Strip(d.summary)]
    && b.added == ItemTexts(d.added) && b.improved == ItemTexts(d.improved) && b.fixed == ItemTexts(d.fixed)
    && b.collapsed == if d.count > 0 then CountLine(d.count) else ""
  }

  ghost predicate Sane(d: Draft) {
    && !Blank(d.headline) && !Blank(d.summary)
    && (forall i :: 0 <= i < |d.added| ==> !Blank(d.added[i]))
    && (forall i :: 0 <= i < |d.improved| ==> !Blank(d.improved[i]))
    && (forall i :: 0 <= i < |d.fixed| ==> !Blank(d.fixed[i]))
  }

  /** Reading the printed lines gives the draft back, unless the summary is taken for a group or for the count. */
  lemma ReadPrintedIff(d: Draft)
    requires Sane(d)
    ensures Shows(ReadBody(EMPTY, BodyLines(d)), d) <==>
            GroupOf(RStrip(d.summary)).None? && CollapsedOf(RStrip(d.summary)).None?
  {
    hide Step, ReadBody, Blank, GroupLines, CountLines, CountLine, ItemTexts;
    var opening := ["", "**" + d.headline + "**", "", d.summary, ""];
    var b := ReadBody(EMPTY, opening);
    ReadOpening(d.headline, d.summary);
    var x := opening + GroupLines(Added, d.added);
    var y := x + GroupLines(Improved, d.improved);
    var z := y + GroupLines(Fixed, d.fixed);
    NotBlank(d.headline);
    ReadMore(EMPTY, opening, GroupLines(Added, d.added));
    ReadGroup(b, Added, d.added);
    var b1 := AfterGroup(b, Added, d.added);
    ReadMore(EMPTY, x, GroupLines(Improved, d.improved));
    ReadGroup(b1, Improved, d.improved);
    var b2 := AfterGroup(b1, Improved, d.improved);
    ReadMore(EMPTY, y, GroupLines(Fixed, d.fixed));
    ReadGroup(b2, Fixed, d.fixed);
    var b3 := AfterGroup(b2, Fixed, d.fixed);
    ReadMore(EMPTY, z, CountLines(d.count));
    ReadCount(b3, d.count);
    NoTexts();
  }

  lemma NoTexts()
    ensures ItemTexts([]) == []
  {
  }

  // ---- what cutting off trailing white space does to the lines ----

  lemma StepStrip(b: Body, raw: string)
    ensures Step(b, RStrip(raw)) == Step(b, raw)
  {
    hide GroupOf, BulletOf, HeadlineOf, CollapsedOf, PySpace, LStrip;
    StripTwice(raw);
  }

  lemma StripTwice(raw: string)
    ensures RStrip(RStrip(raw)) == RStrip(raw)
  {
  }

  lemma BlankStep(b: Body, raw: string)
    requires Blank(raw)
    ensures Step(b, raw) == b
  {
  }

  lemma {:induction false} ReadBlanks(b: Body, lines: seq<string>)
    requires forall i :: 0 <= i < |lines| ==> lines[i] == ""
    ensures ReadBody(b, lines) == b
  {
    hide Step;
    if lines != [] {
      ReadBlanks(b, lines[..|lines| - 1]);
      BlankLine(b);
    }
  }
}
