/** A printed entry, ahead of any other sections, is read back as it was drafted. */
module NotesRoundTrip {
  import opened Decimals
  import opened NotesText
  import opened NotesParse
  import opened NotesPrint
  import opened NotesPieces
  import opened Options

  // ---- the header ----

  lemma {:induction false} RunIsSolid(s: string, digit: bool)
    ensures forall c :: c in s[..Run(s, digit)] ==> IsLabel(c)
  {
    var n := Run(s, digit);
    if n > 0 {
      RunIsSolid(s[1..], digit);
      assert s[..n] == [s[0]] + s[1..][..n - 1];
    }
  }

  predicate Solid(s: string) {
    forall c :: c in s ==> IsLabel(c) || c == 'v' || c == '-'
  }

  lemma SolidParts(a: string, b: string)
    requires Solid(a) && Solid(b)
    ensures Solid(a + b)
  {
  }

  /** A point, a number and what follows it. */
  lemma PartIsSolid(s: string)
    requires Starts(s, ".") || Starts(s, "v")
    requires Solid(s[1 + Run(s[1..], true)..])
    ensures Solid(s)
  {
    var n := Run(s[1..], true);
    RunIsSolid(s[1..], true);
    hide IsLabel, Run;
    assert s == s[..1] + s[1..][..n] + s[1 + n..];
    Dots();
    assert s[..1] == "." || s[..1] == "v";
    SolidParts(s[..1], s[1..][..n]);
    SolidParts(s[..1] + s[1..][..n], s[1 + n..]);
  }

  lemma LabelIsSolid(s: string)
    requires s == "" || (Starts(s, "-") && Run(s[1..], false) == |s| - 1)
    ensures Solid(s)
  {
    if s != "" {
      RunIsSolid(s[1..], false);
      assert s[1..][..|s| - 1] == s[1..];
      assert s == "-" + s[1..];
      Dots();
      SolidParts("-", s[1..]);
    }
  }

  lemma TagIsSolid(s: string)
    requires IsTag(s)
    ensures Solid(s) && s != ""
  {
    hide Solid, Run;
    var afterA := s[1 + Run(s[1..], true)..];
    var afterB := afterA[1 + Run(afterA[1..], true)..];
    LabelIsSolid(afterB[1 + Run(afterB[1..], true)..]);
    PartIsSolid(afterB);
    PartIsSolid(afterA);
    PartIsSolid(s);
  }

  lemma Dots()
    ensures Solid(".") && Solid("v") && Solid("-") && Solid("")
  {
  }

  lemma DateIsSolid(s: string)
    requires IsDate(s)
    ensures Solid(s) && s != ""
  {
  }

  lemma SolidIsPlain(s: string)
    requires Solid(s)
    ensures ' ' !in s && OneLine(s)
  {
  }

  /** A word between blanks is read whole. */
  lemma NextWordIs(word: string, rest: string)
    requires word != "" && ' ' !in word && (rest == "" || rest[0] == ' ')
    ensures NextWord(" " + word + rest) == (word, rest)
  {
    var s := " " + word + rest;
    assert s[1..] == word + rest;
    assert DropBlanks(s) == DropBlanks(word + rest);
    assert word[0] in word;
    assert DropBlanks(word + rest) == word + rest;
    WordIs(word, rest);
    assert (word + rest)[..|word|] == word && (word + rest)[|word|..] == rest;
  }

  lemma {:induction false} WordIs(word: string, rest: string)
    requires ' ' !in word && (rest == "" || rest[0] == ' ')
    ensures Word(word + rest) == |word|
  {
    if word != "" {
      assert word[0] in word && (word + rest)[1..] == word[1..] + rest;
      WordIs(word[1..], rest);
    } else {
      assert word + rest == rest;
    }
  }

  lemma ChannelReads(channel: string)
    requires channel == "beta" || channel == "stable"
    ensures RStrip(DropBlanks(" (" + channel + ")")) == "(" + channel + ")"
  {
    var s := " (" + channel + ")";
    assert s[1..] == "(" + channel + ")";
    assert DropBlanks(s) == s[1..];
    assert s[1..][|s| - 2] == ')';
  }

  /** The three words of a header line, and what is left of it. */
  lemma HeaderWords(tag: string, date: string, channel: string)
    requires tag != "" && date != "" && ' ' !in tag && ' ' !in date
    ensures var line := "## " + tag + " -- " + date + " (" + channel + ")";
            && NextWord(line[2..]) == (tag, " -- " + date + " (" + channel + ")")
            && NextWord(" -- " + date + " (" + channel + ")") == ("--", " " + date + " (" + channel + ")")
            && NextWord(" " + date + " (" + channel + ")") == (date, " (" + channel + ")")
  {
    hide NextWord;
    var line := "## " + tag + " -- " + date + " (" + channel + ")";
    var afterDate := " (" + channel + ")";
    var afterDash := " " + date + afterDate;
    assert line[2..] == " " + tag + (" --" + afterDash);
    NextWordIs(tag, " --" + afterDash);
    NextWordIs("--", afterDash);
    NextWordIs(date, afterDate);
    assert " -- " + date + " (" + channel + ")" == " --" + afterDash == " " + "--" + afterDash;
    assert " " + date + " (" + channel + ")" == afterDash;
  }

  /** A line of these words is a header. */
  lemma HeaderFrom(line: string, tag: string, date: string, channel: string, afterTag: string, afterDash: string,
                   afterDate: string)
    requires Starts(line, "## ") && NextWord(line[2..]) == (tag, afterTag) && NextWord(afterTag) == ("--", afterDash)
    requires NextWord(afterDash) == (date, afterDate) && afterDate != "" && IsTag(tag) && IsDate(date)
    requires channel == "beta" || channel == "stable"
    requires RStrip(DropBlanks(afterDate)) == if channel == "beta" then "(beta)" else "(stable)"
    ensures ReadHeader(line) == Some(Header(tag, date, channel))
  {
    hide NextWord, IsTag, IsDate, RStrip, DropBlanks;
  }

  /** A printed header is read back as its tag, date and channel. */
  lemma HeaderReads(tag: string, date: string)
    requires IsTag(tag) && IsDate(date)
    ensures ReadHeader(HeaderLine(tag, date)) == Some(Header(tag, date, ChannelFor(tag)))
    ensures IsHeading(HeaderLine(tag, date)) && OneLine(HeaderLine(tag, date))
  {
    hide IsTag, IsDate, Solid, NextWord, OneLine, IsLabel, RStrip, DropBlanks, ReadHeader;
    TagIsSolid(tag);
    DateIsSolid(date);
    SolidIsPlain(tag);
    SolidIsPlain(date);
    var channel := ChannelFor(tag);
    HeaderWords(tag, date, channel);
    ChannelReads(channel);
    assert "(" + channel + ")" == if channel == "beta" then "(beta)" else "(stable)";
    HeaderFrom(HeaderLine(tag, date), tag, date, channel, " -- " + date + " (" + channel + ")",
               " " + date + " (" + channel + ")", " (" + channel + ")");
    HeaderIsOneLine(tag, date, channel);
  }

  lemma HeaderIsOneLine(tag: string, date: string, channel: string)
    requires OneLine(tag) && OneLine(date) && (channel == "beta" || channel == "stable")
    ensures OneLine("## " + tag + " -- " + date + " (" + channel + ")")
  {
    assert OneLine("## ") && OneLine(" -- ") && OneLine(" (") && OneLine(")") && OneLine(channel);
    hide OneLine;
    OneLinePlus("## ", tag);
    OneLinePlus("## " + tag, " -- ");
    OneLinePlus("## " + tag + " -- ", date);
    OneLinePlus("## " + tag + " -- " + date, " (");
    OneLinePlus("## " + tag + " -- " + date + " (", channel);
    OneLinePlus("## " + tag + " -- " + date + " (" + channel, ")");
  }

  // ---- the body among the other sections ----

  lemma {:induction false} UntilAfter(lines: seq<string>, rest: seq<string>)
    requires forall l :: l in lines ==> !IsHeading(l)
    ensures UntilHeading(lines + rest) == |lines| + UntilHeading(rest)
  {
    hide IsHeading;
    if lines == [] {
      assert lines + rest == rest;
    } else {
      assert (lines + rest)[1..] == lines[1..] + rest && lines[0] in lines;
      UntilAfter(lines[1..], rest);
    }
  }

  lemma {:induction false} SkipToHeading(lines: seq<string>)
    ensures ReadSections(lines) == ReadSections(lines[UntilHeading(lines)..])
  {
    hide IsHeading, ReadHeader, ReadBody;
    if lines != [] && UntilHeading(lines) > 0 {
      SkipToHeading(lines[1..]);
      assert lines[1..][UntilHeading(lines[1..])..] == lines[UntilHeading(lines)..];
    }
  }

  /** Nothing but empty lines comes before the first section of the text that follows. */
  ghost predicate Follows(rest: seq<string>) {
    forall i :: 0 <= i < UntilHeading(rest) ==> rest[i] == ""
  }

  lemma SectionAt(all: seq<string>, body: seq<string>, rest: seq<string>)
    requires all != [] && IsHeading(all[0]) && ReadHeader(all[0]).Some?
    requires UntilHeading(all[1..]) == |body| && all[1..] == body + rest
    ensures ReadSections(all) ==
            [Section(ReadHeader(all[0]).value, ReadBody(EMPTY, body), StripNewlines(Join(body)))] + ReadSections(rest)
  {
    hide IsHeading, ReadHeader, ReadBody, StripNewlines, Join, UntilHeading;
    assert all[1..1 + |body|] == body && all[1 + |body|..] == rest;
  }

  /** A section whose lines hold no heading ends where the next one begins. */
  lemma FirstSection(heading: string, lines: seq<string>, rest: seq<string>)
    requires IsHeading(heading) && ReadHeader(heading).Some? && (forall l :: l in lines ==> !IsHeading(l)) && Follows(rest)
    ensures ReadSections([heading] + lines + rest) ==
            [Section(ReadHeader(heading).value, ReadBody(EMPTY, lines),
                     StripNewlines(Join(lines + rest[..UntilHeading(rest)])))] + ReadSections(rest)
  {
    hide *;
    var k := UntilHeading(rest);
    var front, behind := rest[..k], rest[k..];
    UntilAfter(lines, rest);
    FollowsBlank(ReadBody(EMPTY, lines), rest);
    ReadMore(EMPTY, lines, front);
    SkipToHeading(rest);
    var all := [heading] + lines + rest;
    assert all[1..] == lines + rest;
    assert lines + rest == (lines + front) + behind;
    SectionAt(all, lines + front, behind);
  }

  lemma FollowsBlank(b: Body, rest: seq<string>)
    requires Follows(rest)
    ensures ReadBody(b, rest[..UntilHeading(rest)]) == b
  {
    ReadBlanks(b, rest[..UntilHeading(rest)]);
  }

  // ---- the printed lines ----

  /** A printed line that is in one piece, no heading, and safe to split. */
  predicate Tame(line: string) {
    InOnePiece(line) && !IsHeading(line) && NoReturn(line)
  }

  lemma OneLineIsTame(line: string)
    requires OneLine(line) && !IsHeading(line)
    ensures Tame(line)
  {
    assert '\r' in line ==> IsBreak('\r');
  }

  lemma BulletIsTame(item: string)
    requires !Blank(item) && OneLine(RStrip(item)) && NoReturn(item)
    ensures Tame("- " + item)
  {
    RStripKeeps("- ", item);
    assert ("- " + item)[0] == '-';
  }

  lemma {:induction false} BulletsAreTame(items: seq<string>)
    requires forall i :: 0 <= i < |items| ==> !Blank(items[i]) && OneLine(RStrip(items[i])) && NoReturn(items[i])
    ensures forall l :: l in Bullets(items) ==> Tame(l)
  {
    hide OneLine, RStrip, Blank, Tame, NoReturn;
    if items != [] {
      BulletsAreTame(items[..|items| - 1]);
      BulletIsTame(items[|items| - 1]);
    }
  }

  lemma GroupIsTame(g: Group, items: seq<string>)
    requires forall i :: 0 <= i < |items| ==> !Blank(items[i]) && OneLine(RStrip(items[i])) && NoReturn(items[i])
    ensures forall l :: l in GroupLines(g, items) ==> Tame(l)
  {
    hide OneLine, RStrip, Blank, Tame, NoReturn;
    if items != [] {
      BulletsAreTame(items);
      TitleIsTame(g);
      EmptyIsTame();
    }
  }

  lemma TitleIsTame(g: Group)
    ensures Tame("### " + Title(g))
  {
    assert ("### " + Title(g))[2] == '#';
    OneLineIsTame("### " + Title(g));
  }

  lemma EmptyIsTame()
    ensures Tame("")
  {
  }

  lemma CountIsTame(count: int)
    ensures forall l :: l in CountLines(count) ==> Tame(l)
  {
    hide OneLine, CountLine, Tame, IsHeading;
    EmptyIsTame();
    if count > 0 {
      CountIsOneLine(count);
      MarkedIsPlain("_" + CountLine(count) + "_");
      OneLineIsTame("_" + CountLine(count) + "_");
    }
  }

  lemma MarkedIsPlain(line: string)
    requires line != "" && line[0] == '_'
    ensures !IsHeading(line)
  {
  }

  lemma OneLinePlus(a: string, b: string)
    requires OneLine(a) && OneLine(b)
    ensures OneLine(a + b)
  {
    hide IsBreak;
  }

  lemma FixedTexts()
    ensures OneLine("_") && OneLine("Plus ") && OneLine(" smaller fixes and internal changes.")
  {
  }

  lemma OneFix()
    ensures OneLine("Plus 1 smaller fix and internal change.")
  {
  }

  lemma CountIsOneLine(count: nat)
    ensures OneLine("_" + CountLine(count) + "_")
  {
    FixedTexts();
    OneFix();
    DigitsAreOneLine(count);
    hide OneLine, Digits;
    OneLinePlus("Plus ", Digits(count));
    OneLinePlus("Plus " + Digits(count), " smaller fixes and internal changes.");
    OneLinePlus("_", CountLine(count));
    OneLinePlus("_" + CountLine(count), "_");
  }

  lemma DigitsAreOneLine(count: nat)
    ensures OneLine(Digits(count))
  {
    hide Digits;
  }

  lemma HeadlineIsTame(headline: string)
    requires OneLine(headline)
    ensures Tame("**" + headline + "**")
  {
    assert ("**" + headline + "**")[0] == '*';
    OneLineIsTame("**" + headline + "**");
  }

  /** No field has a carriage return: the check on a draft rejects those, as it does newlines. */
  ghost predicate NoReturns(d: Draft) {
    forall t :: t in d.Texts() ==> NoReturn(t)
  }

  /** The first three lines, and what comes behind the summary. */
  function Top(d: Draft): seq<string> {
    ["", "**" + d.headline + "**", ""]
  }

  function Tail(d: Draft): seq<string> {
    [""] + GroupLines(Added, d.added) + GroupLines(Improved, d.improved) + GroupLines(Fixed, d.fixed) + CountLines(d.count)
  }

  lemma BodyIs(d: Draft)
    ensures BodyLines(d) == Top(d) + [d.summary] + Tail(d)
  {
    hide GroupLines, CountLines;
    var a, b, c, e := GroupLines(Added, d.added), GroupLines(Improved, d.improved), GroupLines(Fixed, d.fixed), CountLines(d.count);
    assert Top(d) + [d.summary] + [""] == ["", "**" + d.headline + "**", "", d.summary, ""];
    assert Top(d) + [d.summary] + ([""] + a + b + c + e) == (Top(d) + [d.summary] + [""]) + a + b + c + e;
  }

  lemma TopIsTame(d: Draft)
    requires OneLine(d.headline)
    ensures forall l :: l in Top(d) ==> Tame(l)
  {
    hide Tame;
    HeadlineIsTame(d.headline);
    EmptyIsTame();
  }

  lemma TailIsTame(d: Draft)
    requires Sane(d) && OneLines(d) && NoReturns(d)
    ensures forall l :: l in Tail(d) ==> Tame(l)
  {
    hide OneLine, Tame, GroupLines, CountLines, Blank, NoReturn, RStrip, Strip;
    assert forall i :: 0 <= i < |d.added| ==> d.added[i] in d.Texts();
    assert forall i :: 0 <= i < |d.improved| ==> d.improved[i] in d.Texts();
    assert forall i :: 0 <= i < |d.fixed| ==> d.fixed[i] in d.Texts();
    EmptyIsTame();
    GroupIsTame(Added, d.added);
    GroupIsTame(Improved, d.improved);
    GroupIsTame(Fixed, d.fixed);
    CountIsTame(d.count);
  }

  // ---- the white space cut off at the end ----

  predicate AllBlank(lines: seq<string>) {
    forall l :: l in lines ==> Blank(l)
  }

  lemma BlankMore(front: seq<string>, last: string)
    ensures AllBlank(front + [last]) <==> AllBlank(front) && Blank(last)
  {
    hide Blank;
    assert forall l :: l in front + [last] <==> l in front || l == last;
  }

  lemma NoneBlank()
    ensures AllBlank([])
  {
  }

  lemma {:induction false} TightPlus(x: seq<string>, y: seq<string>)
    ensures Tight(x + y) == if AllBlank(y) then Tight(x) else x + Tight(y)
  {
    hide Blank, RStrip, AllBlank;
    if y == [] {
      NoneBlank();
      assert x + y == x;
    } else {
      var front, last := y[..|y| - 1], y[|y| - 1];
      assert (x + y)[..|x + y| - 1] == x + front;
      assert y == front + [last];
      BlankMore(front, last);
      TightPlus(x, front);
    }
  }

  /** Nothing but the headline and the summary is printed. */
  predicate SummaryIsLast(d: Draft) {
    d.added == [] && d.improved == [] && d.fixed == [] && d.count <= 0
  }

  /** The line printed for the summary: white space behind it is cut off if nothing follows. */
  function PrintedSummary(d: Draft): string {
    if SummaryIsLast(d) then RStrip(d.summary) else d.summary
  }

  function PrintedTail(d: Draft): seq<string> {
    if SummaryIsLast(d) then [] else Tight(Tail(d))
  }

  lemma TailHasText(d: Draft)
    ensures SummaryIsLast(d) <==> forall l :: l in Tail(d) ==> Blank(l)
  {
    hide Bullets, CountLine, Digits;
    TitlesAreText();
    if d.added != [] {
      assert GroupLines(Added, d.added)[0] in Tail(d);
    } else if d.improved != [] {
      assert GroupLines(Improved, d.improved)[0] in Tail(d);
    } else if d.fixed != [] {
      assert GroupLines(Fixed, d.fixed)[0] in Tail(d);
    } else if d.count > 0 {
      var line := "_" + CountLine(d.count) + "_";
      assert CountLines(d.count)[0] == line && line[0] in line && line[0] == '_';
      assert line in Tail(d);
    }
  }

  lemma TitlesAreText()
    ensures forall g: Group :: !Blank("### " + Title(g))
  {
    forall g: Group
      ensures !Blank("### " + Title(g))
    {
      assert ("### " + Title(g))[0] in "### " + Title(g);
    }
  }

  lemma TightBody(d: Draft)
    requires !Blank(d.summary)
    ensures Tight(BodyLines(d)) == Top(d) + [PrintedSummary(d)] + PrintedTail(d)
  {
    hide Blank, RStrip, Tail;
    BodyIs(d);
    TailHasText(d);
    TightPlus(Top(d) + [d.summary], Tail(d));
    assert (Top(d) + [d.summary])[..3] == Top(d);
  }

  lemma {:induction false} TightIsTame(lines: seq<string>)
    requires forall l :: l in lines ==> Tame(l)
    ensures forall l :: l in Tight(lines) ==> Tame(l)
  {
    hide Tame, Blank, RStrip;
    if lines != [] {
      var front, last := lines[..|lines| - 1], lines[|lines| - 1];
      assert last in lines && forall l :: l in front ==> l in lines;
      if Blank(last) {
        TightIsTame(front);
      } else {
        StrippedIsTame(last);
      }
    }
  }

  lemma {:induction false} TightNorm(lines: seq<string>)
    ensures Norm(Tight(lines)) == Norm(lines)
  {
    hide Blank, RStrip;
    if lines != [] {
      var front, last := lines[..|lines| - 1], lines[|lines| - 1];
      if Blank(last) {
        TightNorm(front);
        assert Norm(lines) == Norm(front);
      } else {
        RStripTwice(last);
        StrippedIsText(last);
        assert (front + [RStrip(last)])[..|front|] == front;
      }
    }
  }

  lemma StrippedIsText(line: string)
    requires !Blank(line)
    ensures !Blank(RStrip(line))
  {
    RStripTwice(line);
  }

  lemma StrippedIsTame(line: string)
    requires Tame(line) && !Blank(line)
    ensures Tame(RStrip(line)) && !Blank(RStrip(line))
  {
    RStripTwice(line);
  }

  lemma PrintedText(tag: string, date: string, d: Draft)
    requires !Blank(d.summary)
    ensures Render(tag, date, d) == Unlines([HeaderLine(tag, date)] + Tight(BodyLines(d)))
  {
    hide Blank, RStrip, Join, Unlines, Tight, HeaderLine, GroupLines, CountLines;
    var all := [HeaderLine(tag, date)] + BodyLines(d);
    assert BodyLines(d)[3] == d.summary && d.summary in BodyLines(d);
    TightPlus([HeaderLine(tag, date)], BodyLines(d));
    assert d.summary in all;
    TightText(all);
  }

  // ---- what is read of the body ----

  /** The line that the summary is read from. */
  function SummaryAsSplit(d: Draft): string {
    Piece(PrintedSummary(d))
  }

  /** The draft with its summary as it is read. */
  function AsRead(d: Draft): Draft {
    d.(summary := Piece(d.summary))
  }

  lemma PrintedIs(d: Draft)
    requires !Blank(d.summary) && OneLine(Strip(d.summary))
    ensures var p := PrintedSummary(d);
            && !Blank(p) && OneLine(Strip(p)) && Strip(p) == Strip(d.summary)
            && RStrip(Piece(p)) == RStrip(Piece(d.summary))
  {
    hide Blank, RStrip, LStrip, OneLine;
    if SummaryIsLast(d) {
      PieceOfStripped(d.summary);
      RStripTwice(Piece(d.summary));
    }
  }

  /** The printed body, its blank pieces and white space at the ends of lines aside. */
  lemma NormBody(d: Draft)
    requires Sane(d) && OneLines(d) && NoReturns(d)
    ensures Norm(AllPieces(Tight(BodyLines(d)))) == Norm(BodyLines(AsRead(d)))
    ensures !Blank(Piece(d.summary)) && Strip(Piece(d.summary)) == Strip(d.summary)
  {
    hide Blank, RStrip, LStrip, OneLine, Tail, Top, Pieces, Tight, BodyLines, NoReturns, NoReturn;
    var p, s, tail := Piece(d.summary), PrintedSummary(d), PrintedTail(d);
    PrintedIs(d);
    PieceIs(d.summary);
    PieceIs(s);
    TightBody(d);
    BodyIs(AsRead(d));
    SameAround(d);
    TopIsTame(d);
    PrintedTailFacts(d);
    NormLines(Top(d));
    NormLines(tail);
    PiecesPlus(Top(d) + [s], tail);
    PiecesPlus(Top(d), [s]);
    OnePiece(s);
    NormPlus(AllPieces(Top(d)) + Pieces(s), AllPieces(tail));
    NormPlus(AllPieces(Top(d)), Pieces(s));
    NormPlus(Top(d) + [p], Tail(d));
    NormPlus(Top(d), [p]);
    NormOf(p);
  }

  lemma OnePiece(s: string)
    ensures AllPieces([s]) == Pieces(s)
  {
    hide Pieces;
    assert [s][..0] == [];
  }

  lemma SameAround(d: Draft)
    ensures Top(AsRead(d)) == Top(d) && Tail(AsRead(d)) == Tail(d)
  {
  }

  lemma PrintedTailFacts(d: Draft)
    requires Sane(d) && OneLines(d) && NoReturns(d)
    ensures Norm(PrintedTail(d)) == Norm(Tail(d)) && forall l :: l in PrintedTail(d) ==> Tame(l)
  {
    hide Blank, RStrip, OneLine, Tail, Tame, OneLines, NoReturns, Sane;
    TailIsTame(d);
    if SummaryIsLast(d) {
      TailHasText(d);
      NormBlanks(Tail(d));
    } else {
      TightIsTame(Tail(d));
      TightNorm(Tail(d));
    }
  }

  /** No printed line is a heading when the summary's is none. */
  lemma BodyIsPlain(d: Draft)
    requires Sane(d) && OneLines(d) && NoReturns(d) && !IsHeading(SummaryAsSplit(d))
    ensures forall l :: l in AllPieces(Tight(BodyLines(d))) ==> !IsHeading(l)
  {
    hide Blank, RStrip, LStrip, OneLine, Tail, Top, Pieces, Tight, BodyLines, NoReturns, NoReturn, IsHeading;
    var s, tail := PrintedSummary(d), PrintedTail(d);
    PrintedIs(d);
    PieceIs(s);
    TightBody(d);
    TopIsTame(d);
    PrintedTailFacts(d);
    AllPlain(Top(d));
    AllPlain(tail);
    PiecesPlus(Top(d) + [s], tail);
    PiecesPlus(Top(d), [s]);
    OnePiece(s);
    forall l | l in Pieces(s)
      ensures !IsHeading(l)
    {
      if Blank(l) {
        BlanksAreNoHeadings([l]);
        assert l in [l];
      }
    }
  }

  /** When it can be split, the body is read like the draft with its summary as it is read. */
  lemma ReadPieces(d: Draft)
    requires Sane(d) && OneLines(d) && NoReturns(d)
    ensures Shows(ReadBody(EMPTY, AllPieces(Tight(BodyLines(d)))), d) <==>
            GroupOf(RStrip(Piece(d.summary))).None? && CollapsedOf(RStrip(Piece(d.summary))).None?
  {
    hide Blank, RStrip, LStrip, OneLines, Tight, BodyLines, NoReturns, GroupOf, CollapsedOf, ReadBody;
    NormBody(d);
    ReadNorm(EMPTY, AllPieces(Tight(BodyLines(d))));
    ReadNorm(EMPTY, BodyLines(AsRead(d)));
    ReadPrintedIff(AsRead(d));
  }

  // ---- the whole text ----

  /** All that a draft must meet for its section to be read back as it was drafted. */
  ghost predicate ReadsBack(d: Draft) {
    && OneLines(d) && !IsHeading(SummaryAsSplit(d))
    && GroupOf(RStrip(Piece(d.summary))).None? && CollapsedOf(RStrip(Piece(d.summary))).None?
  }

  lemma {:induction false} TightNoReturn(lines: seq<string>)
    requires forall l :: l in lines ==> NoReturn(l)
    ensures forall l :: l in Tight(lines) ==> NoReturn(l)
  {
    hide Blank;
    if lines != [] {
      var front, last := lines[..|lines| - 1], lines[|lines| - 1];
      assert last in lines;
      TightNoReturn(front);
    }
  }

  lemma {:induction false} BulletsHaveNoReturn(items: seq<string>)
    requires forall i :: 0 <= i < |items| ==> NoReturn(items[i])
    ensures forall l :: l in Bullets(items) ==> NoReturn(l)
  {
    if items != [] {
      BulletsHaveNoReturn(items[..|items| - 1]);
    }
  }

  lemma GroupHasNoReturn(g: Group, items: seq<string>)
    requires forall i :: 0 <= i < |items| ==> NoReturn(items[i])
    ensures forall l :: l in GroupLines(g, items) ==> NoReturn(l)
  {
    hide NoReturn;
    if items != [] {
      BulletsHaveNoReturn(items);
      TitleIsTame(g);
      EmptyIsTame();
    }
  }

  lemma BodyHasNoReturn(d: Draft)
    requires NoReturns(d)
    ensures forall l :: l in BodyLines(d) ==> NoReturn(l)
  {
    hide GroupLines, CountLines, Tame;
    assert d.headline in d.Texts() && d.summary in d.Texts();
    assert forall i :: 0 <= i < |d.added| ==> d.added[i] in d.Texts();
    assert forall i :: 0 <= i < |d.improved| ==> d.improved[i] in d.Texts();
    assert forall i :: 0 <= i < |d.fixed| ==> d.fixed[i] in d.Texts();
    GroupHasNoReturn(Added, d.added);
    GroupHasNoReturn(Improved, d.improved);
    GroupHasNoReturn(Fixed, d.fixed);
    CountIsTame(d.count);
    TamesHaveNoReturn(CountLines(d.count));
  }

  lemma TamesHaveNoReturn(lines: seq<string>)
    requires forall l :: l in lines ==> Tame(l)
    ensures forall l :: l in lines ==> NoReturn(l)
  {
  }

  /** The lines of the printed text and whatever follows it. */
  lemma PrintedLines(tag: string, date: string, d: Draft, rest: string)
    requires IsTag(tag) && IsDate(date) && Sane(d) && NoReturns(d)
    ensures SplitLines(Render(tag, date, d) + rest) ==
            [HeaderLine(tag, date)] + AllPieces(Tight(BodyLines(d))) + SplitLines(rest)
  {
    hide *;
    var heading, lines := HeaderLine(tag, date), Tight(BodyLines(d));
    HeaderReads(tag, date);
    SaneMeans(d);
    PrintedText(tag, date, d);
    BodyHasNoReturn(d);
    TightNoReturn(BodyLines(d));
    OneLineIsOne(heading);
    SplitAll([heading] + lines, rest);
    PiecesPlus([heading], lines);
    OnePiece(heading);
  }

  lemma OneLineIsOne(s: string)
    requires OneLine(s)
    ensures Pieces(s) == [s] && NoReturn(s)
  {
    NoBreakIn(s);
    assert '\r' in s ==> IsBreak('\r');
  }

  lemma SaneMeans(d: Draft)
    requires Sane(d)
    ensures !Blank(d.summary) && !Blank(d.headline)
  {
  }

  /** A section begins with a heading that can be read, and goes on until the next one. */
  lemma FirstOfAll(all: seq<string>)
    requires all != [] && IsHeading(all[0]) && ReadHeader(all[0]).Some?
    ensures var n := UntilHeading(all[1..]);
            ReadSections(all) ==
            [Section(ReadHeader(all[0]).value, ReadBody(EMPTY, all[1..1 + n]), StripNewlines(Join(all[1..1 + n])))]
            + ReadSections(all[1 + n..])
  {
    hide IsHeading, ReadHeader, ReadBody, StripNewlines, Join, UntilHeading, ReadSections;
    var n := UntilHeading(all[1..]);
    assert all[1..] == all[1..1 + n] + all[1 + n..];
    SectionAt(all, all[1..1 + n], all[1 + n..]);
  }

  /** The section's text ends ahead of the summary: it has the headline and blank pieces of the summary. */
  ghost predicate CutShort(d: Draft, text: string) {
    exists blanks :: BlankPart(d, blanks) && text == StripNewlines(Join(Top(d) + blanks))
  }

  ghost predicate BlankPart(d: Draft, blanks: seq<string>) {
    forall l :: l in blanks ==> Blank(l) && l in Pieces(PrintedSummary(d))
  }

  /** A summary that reads as a heading ends the section ahead of it. */
  lemma HeadingCuts(heading: string, d: Draft, rest: seq<string>)
    requires IsHeading(heading) && ReadHeader(heading).Some?
    requires Sane(d) && OneLines(d) && IsHeading(SummaryAsSplit(d))
    ensures var all := ReadSections([heading] + AllPieces(Tight(BodyLines(d))) + rest);
            && |all| > 0 && all[0].header == ReadHeader(heading).value && all[0].body.summary == []
            && CutShort(d, all[0].text)
            && (ReadHeader(SummaryAsSplit(d)).Some? ==> |all| > 1 && all[1].header == ReadHeader(SummaryAsSplit(d)).value)
  {
    hide *;
    var s, tail := PrintedSummary(d), AllPieces(PrintedTail(d)) + rest;
    var lines := [heading] + AllPieces(Tight(BodyLines(d))) + rest;
    SaneMeans(d);
    TightBody(d);
    PiecesPlus(Top(d) + [s], PrintedTail(d));
    PiecesPlus(Top(d), [s]);
    OnePiece(s);
    TopPieces(d);
    UntilPieceOf(d, tail);
    assert lines[1..] == Top(d) + (Pieces(s) + tail);
    UntilAfter(Top(d), Pieces(s) + tail);
    FirstOfAll(lines);
    var n := UntilHeading(Pieces(s) + tail);
    TopIsThree(d);
    assert lines[1..4 + n] == Top(d) + (Pieces(s) + tail)[..n];
    assert lines[4 + n..] == (Pieces(s) + tail)[n..];
    var blanks := (Pieces(s) + tail)[..n];
    CutBody(d, blanks);
    CutIsShort(d, blanks, ReadSections(lines)[0].text);
    if ReadHeader(SummaryAsSplit(d)).Some? {
      FirstOfAll(lines[4 + n..]);
    }
  }

  lemma CutIsShort(d: Draft, blanks: seq<string>, text: string)
    requires forall i :: 0 <= i < |blanks| ==> Blank(blanks[i])
    requires forall l :: l in blanks ==> l in Pieces(PrintedSummary(d))
    requires text == StripNewlines(Join(Top(d) + blanks))
    ensures CutShort(d, text)
  {
    hide Blank, Pieces, StripNewlines, Join, Top;
    assert BlankPart(d, blanks);
  }

  lemma TopIsThree(d: Draft)
    ensures |Top(d)| == 3
  {
  }

  lemma TopPieces(d: Draft)
    requires OneLines(d)
    ensures AllPieces(Top(d)) == Top(d) && forall l :: l in Top(d) ==> !IsHeading(l)
  {
    hide Pieces, OneLine, Strip, RStrip, Tame;
    var h := "**" + d.headline + "**";
    TopIsTame(d);
    TamesAreNoHeadings(Top(d));
    HeadlineIsOneLine(d.headline);
    OneLineIsOne(h);
    OneLineIsOne("");
    PiecesPlus(["", h], [""]);
    PiecesPlus([""], [h]);
    OnePiece(h);
    OnePiece("");
    assert ["", h] == [""] + [h] && Top(d) == ["", h] + [""];
  }

  lemma HeadlineIsOneLine(headline: string)
    requires OneLine(headline)
    ensures OneLine("**" + headline + "**") && OneLine("")
  {
  }

  lemma TamesAreNoHeadings(lines: seq<string>)
    requires forall l :: l in lines ==> Tame(l)
    ensures forall l :: l in lines ==> !IsHeading(l)
  {
  }

  lemma UntilPieceOf(d: Draft, more: seq<string>)
    requires IsHeading(SummaryAsSplit(d))
    ensures var all := Pieces(PrintedSummary(d)) + more;
            && UntilHeading(all) < |all| && all[UntilHeading(all)] == SummaryAsSplit(d)
            && IsHeading(all[UntilHeading(all)])
            && (forall l :: l in all[..UntilHeading(all)] ==> l in Pieces(PrintedSummary(d)))
            && forall i :: 0 <= i < UntilHeading(all) ==> Blank(all[i])
  {
    UntilPiece(PrintedSummary(d), more);
  }

  lemma BlanksAre(lines: seq<string>)
    requires forall i :: 0 <= i < |lines| ==> Blank(lines[i])
    ensures forall l :: l in lines ==> Blank(l)
  {
    hide Blank;
  }

  lemma CutBody(d: Draft, blanks: seq<string>)
    requires !Blank(d.headline) && forall i :: 0 <= i < |blanks| ==> Blank(blanks[i])
    ensures ReadBody(EMPTY, Top(d) + blanks).summary == []
  {
    hide Blank, ReadBody, Step, Norm;
    var h := "**" + d.headline + "**";
    BlanksAre(blanks);
    NormBlanks(blanks);
    NormPlus(Top(d), blanks);
    ReadNorm(EMPTY, Top(d) + blanks);
    ReadNorm(EMPTY, Top(d));
    assert Norm(Top(d)) + [] == Norm(Top(d));
    assert Top(d) == [""] + [h] + [""];
    hide Top;
    ReadMore(EMPTY, [""] + [h], [""]);
    ReadMore(EMPTY, [""], [h]);
    ReadOne(EMPTY, "");
    BlankLine(EMPTY);
    ReadOne(EMPTY, h);
    HeadLine(d.headline);
    ReadOne(EMPTY.(headline := d.headline), "");
    BlankLine(EMPTY.(headline := d.headline));
  }

  /**
   * The round trip: the printed entry followed by any sections is read as that entry's tag, date and channel. Its
   * fields come back exactly when none has a line break inside it and the summary's line passes neither for a
   * heading nor for a group's title nor for the count. Unless it passes for a heading the other sections are
   * unchanged behind it; a summary that reads as a section's header begins a section that nobody drafted.
   */
  lemma RoundTrip(tag: string, date: string, d: Draft, rest: string)
    requires IsTag(tag) && IsDate(date) && Sane(d) && NoReturns(d) && Follows(SplitLines(rest))
    ensures var all := Parse(Render(tag, date, d) + rest);
            && |all| > 0 && all[0].header == Header(tag, date, ChannelFor(tag))
            && (Shows(all[0].body, d) <==> ReadsBack(d))
    ensures OneLines(d) && !IsHeading(SummaryAsSplit(d)) ==>
              var all := Parse(Render(tag, date, d) + rest);
              && all[1..] == Parse(rest)
              && all[0].text == StripNewlines(Join(AllPieces(Tight(BodyLines(d)))
                                                   + SplitLines(rest)[..UntilHeading(SplitLines(rest))]))
    ensures OneLines(d) && IsHeading(SummaryAsSplit(d)) && ReadHeader(SummaryAsSplit(d)).Some? ==>
              var all := Parse(Render(tag, date, d) + rest);
              |all| > 1 && all[1].header == ReadHeader(SummaryAsSplit(d)).value
    ensures OneLines(d) && IsHeading(SummaryAsSplit(d)) ==> CutShort(d, Parse(Render(tag, date, d) + rest)[0].text)
  {
    hide *;
    var heading, lines, behind := HeaderLine(tag, date), AllPieces(Tight(BodyLines(d))), SplitLines(rest);
    var text := Render(tag, date, d) + rest;
    HeaderReads(tag, date);
    PrintedLines(tag, date, d, rest);
    ParseIs(text);
    ParseIs(rest);
    ReadsBackMeans(d);
    if !OneLines(d) {
      BrokenSection([heading] + lines + behind, text, d);
    } else if IsHeading(SummaryAsSplit(d)) {
      HeadingCuts(heading, d, behind);
      ShowsMeans(Parse(text)[0].body, d);
    } else {
      BodyIsPlain(d);
      FirstSection(heading, lines, behind);
      ReadPieces(d);
    }
  }

  lemma ParseIs(text: string)
    ensures Parse(text) == ReadSections(SplitLines(text))
  {
  }

  lemma ReadsBackMeans(d: Draft)
    ensures ReadsBack(d) <==>
            OneLines(d) && !IsHeading(SummaryAsSplit(d))
            && GroupOf(RStrip(Piece(d.summary))).None? && CollapsedOf(RStrip(Piece(d.summary))).None?
  {
    hide OneLines, IsHeading, GroupOf, CollapsedOf;
  }

  lemma ShowsMeans(b: Body, d: Draft)
    ensures b.summary == [] ==> !Shows(b, d)
  {
  }

  lemma BrokenSection(all: seq<string>, text: string, d: Draft)
    requires all == SplitLines(text) && all != [] && IsHeading(all[0]) && ReadHeader(all[0]).Some? && !OneLines(d)
    ensures var sections := ReadSections(all);
            |sections| > 0 && sections[0].header == ReadHeader(all[0]).value && !Shows(sections[0].body, d)
  {
    hide *;
    FirstOfAll(all);
    SplitIsOneLine(text);
    var body := all[1..1 + UntilHeading(all[1..])];
    PartsAreOneLine(all, body);
    if Shows(ReadBody(EMPTY, body), d) {
      BrokenIsNotShown(d, body);
    }
  }

  lemma PartsAreOneLine(all: seq<string>, some: seq<string>)
    requires AllOneLine(all) && forall l :: l in some ==> l in all
    ensures AllOneLine(some)
  {
    hide OneLine;
  }

  /** A validated draft meets what the round trip asks of its texts. */
  lemma ValidatedIsSane(d: Draft, minCount: int, maxItems: nat, maxSummary: nat)
    requires Validated(d, minCount, maxItems, maxSummary)
    ensures Sane(d) && NoReturns(d)
  {
    hide Blank;
    assert d.Items(Added) == d.added && d.Items(Improved) == d.improved && d.Items(Fixed) == d.fixed;
    forall i | 0 <= i < |d.added| ensures !Blank(d.added[i]) {
      assert !Blank(d.Items(Added)[i]);
    }
    forall i | 0 <= i < |d.improved| ensures !Blank(d.improved[i]) {
      assert !Blank(d.Items(Improved)[i]);
    }
    forall i | 0 <= i < |d.fixed| ensures !Blank(d.fixed[i]) {
      assert !Blank(d.Items(Fixed)[i]);
    }
    assert FORBIDDEN[1] == '\r' && '\r' in FORBIDDEN;
  }
}
