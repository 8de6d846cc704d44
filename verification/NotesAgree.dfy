/** The installer reads from a published entry what the change log's own parser does, inline markers aside. */
module NotesAgree {
  import opened Decimals
  import opened NotesText
  import opened NotesParse
  import opened NotesPrint
  import opened NotesPieces
  import opened NotesRoundTrip
  import opened NotesGo

  lemma {:induction false} GoReadMore(e: Entry, x: seq<string>, y: seq<string>)
    ensures GoRead(e, x + y) == GoRead(GoRead(e, x), y)
  {
    hide GoStep;
    if y == [] {
      assert x + y == x;
    } else {
      var front := y[..|y| - 1];
      assert (x + y)[..|x + y| - 1] == x + front;
      GoReadMore(e, x, front);
    }
  }

  lemma GoReadOne(e: Entry, line: string)
    ensures GoRead(e, [line]) == GoStep(e, line)
  {
    hide GoStep;
    assert [line][..0] == [];
  }

  lemma GoReadNothing(e: Entry)
    ensures GoRead(e, []) == e
  {
  }

  function Trimmed(items: seq<string>): seq<string> {
    seq(|items|, i requires 0 <= i < |items| => GoTrim(items[i]))
  }

  lemma {:induction false} GoReadBullets(e: Entry, before: seq<Listed>, title: string, items: seq<string>)
    requires e.groups == before + [Listed(title, [])] && forall i :: 0 <= i < |items| ==> !Blank(items[i])
    ensures GoRead(e, Bullets(items)) == e.(groups := before + [Listed(title, Trimmed(items))])
  {
    hide GoStep, Blank, GoTrim, GoRead;
    if items != [] {
      var front, last := items[..|items| - 1], items[|items| - 1];
      GoReadBullets(e, before, title, front);
      var now := e.(groups := before + [Listed(title, Trimmed(front))]);
      GoReadMore(e, Bullets(front), ["- " + last]);
      GoReadOne(now, "- " + last);
      GoBulletLine(now, last);
      assert Trimmed(front) + [GoTrim(last)] == Trimmed(items);
      assert AddItem(now.groups, GoTrim(last)) == before + [Listed(title, Trimmed(items))];
    } else {
      GoReadNothing(e);
      assert Trimmed(items) == [];
    }
  }

  function ListedOf(g: Group, items: seq<string>): seq<Listed> {
    if items == [] then [] else [Listed(Title(g), Trimmed(items))]
  }

  lemma GoReadGroup(e: Entry, g: Group, items: seq<string>)
    requires forall i :: 0 <= i < |items| ==> !Blank(items[i])
    ensures GoRead(e, GroupLines(g, items)) == e.(groups := e.groups + ListedOf(g, items))
  {
    hide GoStep, Blank, GoTrim, GoRead, Trimmed;
    if items == [] {
      GoReadNothing(e);
      assert e.groups + [] == e.groups;
    } else {
      var title := ["### " + Title(g)];
      var named := e.(groups := e.groups + [Listed(Title(g), [])]);
      var full := e.(groups := e.groups + [Listed(Title(g), Trimmed(items))]);
      GoReadMore(e, title + Bullets(items), [""]);
      GoReadMore(e, title, Bullets(items));
      GoReadOne(e, title[0]);
      GoGroupLine(e, g);
      GoReadBullets(named, e.groups, Title(g), items);
      GoReadOne(full, "");
      GoBlankLine(full);
    }
  }

  lemma GoReadOpening(headline: string, summary: string)
    requires !Blank(headline) && !Blank(summary)
    ensures var e := GoRead(NO_ENTRY, ["", "**" + headline + "**", "", summary, ""]);
            if TakenByGo(summary) then e.summary == [] && e.headline == GoTrim(headline) != ""
            else e == NO_ENTRY.(headline := GoTrim(headline), summary := [GoTrim(summary)]) && e.headline != ""
  {
    hide GoStep, GoRead, Blank, GoTrim, TakenByGo;
    var h := "**" + headline + "**";
    GoReadMore(NO_ENTRY, ["", h, "", summary], [""]);
    GoReadMore(NO_ENTRY, ["", h, ""], [summary]);
    GoReadMore(NO_ENTRY, ["", h], [""]);
    GoReadMore(NO_ENTRY, [""], [h]);
    assert ["", h] == [""] + [h] && ["", h, ""] == ["", h] + [""];
    assert ["", h, "", summary] == ["", h, ""] + [summary];
    assert ["", h, "", summary, ""] == ["", h, "", summary] + [""];
    GoReadOne(NO_ENTRY, "");
    GoBlankLine(NO_ENTRY);
    GoReadOne(NO_ENTRY, h);
    GoHeadLine(headline);
    var e := NO_ENTRY.(headline := GoTrim(headline));
    GoReadOne(e, "");
    GoBlankLine(e);
    GoReadOne(e, summary);
    GoSummaryLine(e, summary);
    GoReadOne(GoStep(e, summary), "");
    GoBlankLine(GoStep(e, summary));
  }

  lemma GoReadCount(e: Entry, count: int)
    requires e.headline != ""
    ensures GoRead(e, CountLines(count)) ==
            if count > 0 then e.(collapsed := GoTrim(CountLine(count))) else e
  {
    hide GoStep, GoRead, CountLine, GoTrim;
    if count > 0 {
      var line := "_" + CountLine(count) + "_";
      assert [line, ""] == [line] + [""];
      GoReadMore(e, [line], [""]);
      GoReadOne(e, line);
      CountIsThere(count);
      GoCountLine(e, CountLine(count));
      var next := e.(collapsed := GoTrim(CountLine(count)));
      GoReadOne(next, "");
      GoBlankLine(next);
    } else {
      GoReadNothing(e);
    }
  }

  /** The installer's reading of a draft: every field trimmed. */
  ghost predicate GoShows(e: Entry, d: Draft) {
    && e.headline == GoTrim(d.headline) && e.summary == [GoTrim(d.summary)] && e.loose == []
    && e.groups == ListedOf(Added, d.added) + ListedOf(Improved, d.improved) + ListedOf(Fixed, d.fixed)
    && e.collapsed == if d.count > 0 then GoTrim(CountLine(d.count)) else ""
  }

  /**
   * The installer reads every field of the printed lines, trimmed, exactly when the summary does not open as a
   * group, a bullet or the count.
   */
  lemma GoReadPrintedIff(d: Draft)
    requires Sane(d)
    ensures GoShows(GoRead(NO_ENTRY, BodyLines(d)), d) <==> !TakenByGo(d.summary)
  {
    hide GoStep, GoRead, Blank, GoTrim, TakenByGo, GroupLines, CountLines, CountLine, ListedOf;
    var opening := ["", "**" + d.headline + "**", "", d.summary, ""];
    var e := GoRead(NO_ENTRY, opening);
    GoReadOpening(d.headline, d.summary);
    var x := opening + GroupLines(Added, d.added);
    var y := x + GroupLines(Improved, d.improved);
    var z := y + GroupLines(Fixed, d.fixed);
    GoReadMore(NO_ENTRY, opening, GroupLines(Added, d.added));
    GoReadGroup(e, Added, d.added);
    var e1 := e.(groups := e.groups + ListedOf(Added, d.added));
    GoReadMore(NO_ENTRY, x, GroupLines(Improved, d.improved));
    GoReadGroup(e1, Improved, d.improved);
    var e2 := e1.(groups := e1.groups + ListedOf(Improved, d.improved));
    GoReadMore(NO_ENTRY, y, GroupLines(Fixed, d.fixed));
    GoReadGroup(e2, Fixed, d.fixed);
    var e3 := e2.(groups := e2.groups + ListedOf(Fixed, d.fixed));
    GoReadMore(NO_ENTRY, z, CountLines(d.count));
    GoReadCount(e3, d.count);
    assert [] + ListedOf(Added, d.added) == ListedOf(Added, d.added);
  }

  // ---- the published text ----

  lemma {:induction false} GoReadNorm(e: Entry, lines: seq<string>)
    requires forall l :: l in lines ==> Agreed(l)
    ensures GoRead(e, Norm(lines)) == GoRead(e, lines)
  {
    hide GoStep, Agreed, RStrip, Blank;
    if lines != [] {
      var front, last := lines[..|lines| - 1], lines[|lines| - 1];
      assert last in lines;
      GoReadNorm(e, front);
      if Blank(last) {
        assert Norm(lines) == Norm(front);
        GoBlankStep(GoRead(e, front), last);
      } else {
        GoReadMore(e, Norm(front), [RStrip(last)]);
        GoReadOne(GoRead(e, front), RStrip(last));
        GoStepStrip(GoRead(e, front), last);
      }
    }
  }

  lemma {:induction false} BlankTrims(s: string)
    requires Blank(s) && Agreed(s)
    ensures GoTrimRight(s) == ""
  {
    if s != "" {
      assert s[|s| - 1] in s;
      FrontAgrees(s);
      BlankTrims(s[..|s| - 1]);
    }
  }

  lemma GoBlankStep(e: Entry, raw: string)
    requires Blank(raw) && Agreed(raw)
    ensures GoStep(e, raw) == e
  {
    BlankTrims(raw);
  }

  lemma GoStepStrip(e: Entry, raw: string)
    requires !Blank(raw) && Agreed(raw)
    ensures GoStep(e, RStrip(raw)) == GoStep(e, raw)
  {
    TrimAgreed(raw);
    FirstStays(raw);
    hide PySpace, GoSpace, RStrip, GoTrimRight, Starts, Ends;
  }

  lemma FirstStays(raw: string)
    requires !Blank(raw)
    ensures raw != "" && RStrip(raw) != "" && RStrip(raw)[0] == raw[0]
  {
  }

  lemma {:induction false} GoReadBlanks(e: Entry, lines: seq<string>)
    requires forall i :: 0 <= i < |lines| ==> lines[i] == ""
    ensures GoRead(e, lines) == e
  {
    hide GoStep;
    if lines != [] {
      GoReadBlanks(e, lines[..|lines| - 1]);
      GoBlankLine(e);
    }
  }

  lemma {:induction false} SplitAppend(a: string, t: string)
    ensures SplitNewlines(a + "\n" + t) == SplitNewlines(a) + SplitNewlines(t)
  {
    var whole := a + "\n" + t;
    if a == "" {
      assert whole[1..] == t;
    } else {
      assert whole[1..] == a[1..] + "\n" + t;
      SplitAppend(a[1..], t);
    }
  }

  lemma {:induction false} SplitPlain(line: string)
    requires '\n' !in line
    ensures SplitNewlines(line) == [line]
  {
    if line != "" {
      assert line[0] in line;
      SplitPlain(line[1..]);
      assert [line[0]] + line[1..] == line;
    }
  }

  lemma {:induction false} SplitJoined(lines: seq<string>)
    requires lines != [] && forall l :: l in lines ==> '\n' !in l
    ensures SplitNewlines(Join(lines)) == lines
  {
    var front, last := lines[..|lines| - 1], lines[|lines| - 1];
    assert last in lines && lines == front + [last];
    SplitPlain(last);
    if front != [] {
      SplitJoined(front);
      SplitAppend(Join(front), last);
    }
  }

  function GoReadText(t: string): Entry {
    GoRead(NO_ENTRY, SplitNewlines(t))
  }

  lemma EndsWithNewline(t: string)
    ensures GoReadText(t + "\n") == GoReadText(t)
  {
    hide GoStep;
    SplitAppend(t, "");
    assert t + "\n" + "" == t + "\n";
    var lines := SplitNewlines(t);
    assert (lines + [""])[..|lines|] == lines;
    GoBlankLine(GoRead(NO_ENTRY, lines));
  }

  lemma StartsWithNewline(t: string)
    ensures GoReadText("\n" + t) == GoReadText(t)
  {
    hide GoStep;
    SplitAppend("", t);
    assert "" + "\n" + t == "\n" + t;
    GoReadMore(NO_ENTRY, [""], SplitNewlines(t));
    GoReadOne(NO_ENTRY, "");
    GoBlankLine(NO_ENTRY);
  }

  /** Empty lines at either end make no difference to the installer. */
  lemma {:induction false} GoReadStripped(t: string)
    ensures GoReadText(StripNewlines(t)) == GoReadText(t)
    decreases |t|
  {
    hide GoReadText;
    if t != "" && t[0] == '\n' {
      assert t == "\n" + t[1..];
      StartsWithNewline(t[1..]);
      GoReadStripped(t[1..]);
    } else if t != "" && t[|t| - 1] == '\n' {
      assert t == t[..|t| - 1] + "\n";
      EndsWithNewline(t[..|t| - 1]);
      GoReadStripped(t[..|t| - 1]);
    }
  }

  ghost predicate AllAgreed(d: Draft) {
    forall t :: t in d.Texts() ==> Agreed(t)
  }

  lemma {:induction false} BulletsAgree(items: seq<string>)
    requires forall i :: 0 <= i < |items| ==> Agreed(items[i])
    ensures forall l :: l in Bullets(items) ==> Agreed(l)
  {
    if items != [] {
      var front, last := items[..|items| - 1], items[|items| - 1];
      BulletsAgree(front);
      AgreedPlus("- ", last);
    }
  }

  lemma AgreedPlus(a: string, b: string)
    requires Agreed(a) && Agreed(b)
    ensures Agreed(a + b)
  {
  }

  lemma GroupAgrees(g: Group, items: seq<string>)
    requires forall i :: 0 <= i < |items| ==> Agreed(items[i])
    ensures forall l :: l in GroupLines(g, items) ==> Agreed(l)
  {
    BulletsAgree(items);
    assert Agreed("### " + Title(g)) && Agreed("");
    hide Agreed;
  }

  lemma CountAgrees(count: int)
    ensures forall l :: l in CountLines(count) ==> Agreed(l)
  {
    if count > 0 {
      if count == 1 {
        OneFixAgrees();
      } else {
        DigitsAgree(count);
        PlusAgrees();
        FixesAgree();
        hide Agreed, Digits;
        AgreedPlus("Plus ", Digits(count));
        AgreedPlus("Plus " + Digits(count), " smaller fixes and internal changes.");
      }
      MarksAgree();
      hide Agreed, CountLine;
      AgreedPlus("_", CountLine(count));
      AgreedPlus("_" + CountLine(count), "_");
    }
  }

  lemma OneFixAgrees()
    ensures Agreed("Plus 1 smaller fix and internal change.")
  {
  }

  lemma PlusAgrees()
    ensures Agreed("Plus ")
  {
  }

  lemma FixesAgree()
    ensures Agreed(" smaller fixes and internal changes.")
  {
  }

  lemma MarksAgree()
    ensures Agreed("_") && Agreed("") && Agreed("**") && Agreed("- ")
  {
  }

  lemma DigitsAgree(count: nat)
    ensures Agreed(Digits(count))
  {
    hide Digits;
  }

  lemma BodyAgrees(d: Draft)
    requires AllAgreed(d)
    ensures forall l :: l in BodyLines(d) ==> Agreed(l)
  {
    hide Agreed, GroupLines, CountLines;
    assert d.headline in d.Texts() && d.summary in d.Texts();
    assert forall i :: 0 <= i < |d.added| ==> d.added[i] in d.Texts();
    assert forall i :: 0 <= i < |d.improved| ==> d.improved[i] in d.Texts();
    assert forall i :: 0 <= i < |d.fixed| ==> d.fixed[i] in d.Texts();
    MarksAgree();
    AgreedPlus("**", d.headline);
    AgreedPlus("**" + d.headline, "**");
    GroupAgrees(Added, d.added);
    GroupAgrees(Improved, d.improved);
    GroupAgrees(Fixed, d.fixed);
    CountAgrees(d.count);
  }

  lemma NoNewline(s: string)
    requires OneLine(s)
    ensures '\n' !in s
  {
  }

  // ---- the pieces of the lines ----

  lemma PartAgrees(s: string, part: string)
    requires Agreed(s) && forall c :: c in part ==> c in s
    ensures Agreed(part)
  {
  }

  /** Each piece is a part of its line, and is one line. */
  lemma {:induction false} PiecesAreParts(line: string)
    ensures forall x :: x in Pieces(line) ==> OneLine(x) && forall c :: c in x ==> c in line
    decreases |line|
  {
    hide FirstBreak, Pieces, IsBreak;
    var n := FirstBreak(line);
    PiecesAt(line);
    assert forall k :: 0 <= k < n ==> line[..n][k] == line[k];
    if n < |line| {
      PiecesAreParts(line[n + 1..]);
    }
    assert n == |line| ==> line[..n] == line;
  }

  lemma PiecesAgree(line: string)
    requires Agreed(line)
    ensures forall x :: x in Pieces(line) ==> Agreed(x) && '\n' !in x
  {
    hide Pieces;
    PiecesAreParts(line);
    forall x | x in Pieces(line)
      ensures Agreed(x) && '\n' !in x
    {
      PartAgrees(line, x);
      NoNewline(x);
    }
  }

  lemma {:induction false} AllPiecesAgree(lines: seq<string>)
    requires forall l :: l in lines ==> Agreed(l)
    ensures forall x :: x in AllPieces(lines) ==> Agreed(x) && '\n' !in x
  {
    hide Agreed, Pieces;
    if lines != [] {
      assert lines[|lines| - 1] in lines;
      AllPiecesAgree(lines[..|lines| - 1]);
      PiecesAgree(lines[|lines| - 1]);
    }
  }

  lemma {:induction false} TightAgrees(lines: seq<string>)
    requires forall l :: l in lines ==> Agreed(l)
    ensures forall l :: l in Tight(lines) ==> Agreed(l)
  {
    hide Blank;
    if lines != [] {
      var front, last := lines[..|lines| - 1], lines[|lines| - 1];
      assert last in lines;
      TightAgrees(front);
      PartAgrees(last, RStrip(last));
    }
  }

  lemma {:induction false} RightIsRStrip(s: string)
    requires Agreed(s)
    ensures GoTrimRight(s) == RStrip(s)
  {
    if s != "" {
      assert s[|s| - 1] in s;
      FrontAgrees(s);
      RightIsRStrip(s[..|s| - 1]);
    }
  }

  lemma {:induction false} LeftIsLStrip(s: string)
    requires Agreed(s)
    ensures GoTrimLeft(s) == LStrip(s)
  {
    if s != "" {
      assert s[0] in s;
      PartAgrees(s, s[1..]);
      LeftIsLStrip(s[1..]);
    }
  }

  /** Where Go and Python agree about white space they strip alike. */
  lemma TrimIsStrip(s: string)
    requires Agreed(s)
    ensures GoTrim(s) == Strip(s)
  {
    RightIsRStrip(s);
    PartAgrees(s, RStrip(s));
    LeftIsLStrip(RStrip(s));
  }

  /** The summary as it is read has the same text. */
  lemma SummaryAgrees(d: Draft)
    requires Sane(d) && OneLines(d) && AllAgreed(d)
    ensures GoTrim(Piece(d.summary)) == GoTrim(d.summary) && Sane(AsRead(d)) && AllAgreed(AsRead(d))
  {
    hide Blank, OneLine, Strip, Agreed, RStrip, Pieces, Piece;
    var p := Piece(d.summary);
    assert d.summary in d.Texts() && Agreed(d.summary);
    PieceIs(d.summary);
    PiecesAgree(d.summary);
    TrimIsStrip(d.summary);
    TrimIsStrip(p);
    forall t | t in AsRead(d).Texts()
      ensures Agreed(t)
    {
      assert t in d.Texts() || t == p;
    }
  }

  /** The text a release publishes, its last line ended, is read as the lines of the draft as it is read. */
  lemma GoReadsPublished(d: Draft, behind: seq<string>, text: string)
    requires Sane(d) && OneLines(d) && NoReturns(d) && AllAgreed(d)
    requires forall i :: 0 <= i < |behind| ==> behind[i] == ""
    requires text == StripNewlines(Join(AllPieces(Tight(BodyLines(d))) + behind))
    ensures GoReadText(text + "\n") == GoRead(NO_ENTRY, BodyLines(AsRead(d)))
  {
    hide *;
    var pieces := AllPieces(Tight(BodyLines(d)));
    var lines := pieces + behind;
    BodyAgrees(d);
    TightAgrees(BodyLines(d));
    AllPiecesAgree(Tight(BodyLines(d)));
    EndsWithNewline(text);
    GoReadStripped(Join(lines));
    SaneMeans(d);
    SomethingLeft(d);
    ReadsLines(lines);
    GoReadMore(NO_ENTRY, pieces, behind);
    GoReadBlanks(GoRead(NO_ENTRY, pieces), behind);
    GoReadNorm(NO_ENTRY, pieces);
    NormBody(d);
    SummaryAgrees(d);
    BodyAgrees(AsRead(d));
    GoReadNorm(NO_ENTRY, BodyLines(AsRead(d)));
  }

  lemma ReadsLines(lines: seq<string>)
    requires lines != [] && forall l :: l in lines ==> '\n' !in l
    ensures GoReadText(Join(lines)) == GoRead(NO_ENTRY, lines)
  {
    SplitJoined(lines);
  }

  lemma SomethingLeft(d: Draft)
    requires !Blank(d.summary)
    ensures AllPieces(Tight(BodyLines(d))) != []
  {
    hide Blank, Tight, Pieces, BodyLines;
    TightBody(d);
    PiecesPlus(Top(d) + [PrintedSummary(d)], PrintedTail(d));
    PiecesPlus(Top(d), [PrintedSummary(d)]);
    OnePiece(PrintedSummary(d));
  }

  /** Of a section that is cut short the installer reads no summary. */
  lemma GoReadsCut(d: Draft, text: string)
    requires Sane(d) && OneLines(d) && AllAgreed(d) && CutShort(d, text)
    ensures GoReadText(text + "\n").summary == []
  {
    hide *;
    SaneMeans(d);
    var blanks := BlanksOf(d, text);
    var lines := Top(d) + blanks;
    TopAgrees(d);
    EndsWithNewline(text);
    GoReadStripped(Join(lines));
    TopIsThree(d);
    ReadsLines(lines);
    GoReadNorm(NO_ENTRY, lines);
    NormPlus(Top(d), blanks);
    NormBlanks(blanks);
    assert Norm(Top(d)) + [] == Norm(Top(d));
    GoReadNorm(NO_ENTRY, Top(d));
    GoReadTop(d);
  }

  lemma BlanksOf(d: Draft, text: string) returns (blanks: seq<string>)
    requires CutShort(d, text) && AllAgreed(d)
    ensures text == StripNewlines(Join(Top(d) + blanks))
    ensures forall l :: l in blanks ==> Blank(l) && Agreed(l) && '\n' !in l
  {
    hide StripNewlines, Join, Top, Blank, Pieces;
    blanks :| BlankPart(d, blanks) && text == StripNewlines(Join(Top(d) + blanks));
    assert d.summary in d.Texts();
    PartAgrees(d.summary, PrintedSummary(d));
    PiecesAgree(PrintedSummary(d));
  }

  lemma TopAgrees(d: Draft)
    requires AllAgreed(d) && OneLines(d)
    ensures forall l :: l in Top(d) ==> Agreed(l) && '\n' !in l
  {
    hide Agreed, OneLine, Strip, RStrip;
    assert d.headline in d.Texts();
    MarksAgree();
    AgreedPlus("**", d.headline);
    AgreedPlus("**" + d.headline, "**");
    HeadlineIsOneLine(d.headline);
    NoNewline("**" + d.headline + "**");
  }

  lemma GoReadTop(d: Draft)
    requires !Blank(d.headline)
    ensures GoRead(NO_ENTRY, Top(d)).summary == []
  {
    hide GoStep, GoRead, Blank, GoTrim;
    var h := "**" + d.headline + "**";
    assert Top(d) == [""] + [h] + [""];
    GoReadMore(NO_ENTRY, [""] + [h], [""]);
    GoReadMore(NO_ENTRY, [""], [h]);
    GoReadOne(NO_ENTRY, "");
    GoBlankLine(NO_ENTRY);
    GoReadOne(NO_ENTRY, h);
    GoHeadLine(d.headline);
    var e := NO_ENTRY.(headline := GoTrim(d.headline));
    GoReadOne(e, "");
    GoBlankLine(e);
  }

  /**
   * From the change log to the installer: when no field has a line break inside it, the installer reads from the
   * first section's text, as published, every field of the draft, trimmed and without inline markers, exactly when
   * the summary's line is no heading and does not open as a group, a bullet or the count.
   */
  lemma InstallerReadsDraftIff(tag: string, date: string, d: Draft, rest: string)
    requires IsTag(tag) && IsDate(date) && Sane(d) && NoReturns(d) && OneLines(d) && AllAgreed(d)
    requires Follows(SplitLines(rest))
    ensures var all := Parse(Render(tag, date, d) + rest);
            && |all| > 0
            && (GoShows(GoReadText(all[0].text + "\n"), d) <==> !IsHeading(SummaryAsSplit(d)) && !TakenByGo(d.summary))
  {
    hide *;
    RoundTrip(tag, date, d, rest);
    var behind, text := SplitLines(rest), Parse(Render(tag, date, d) + rest)[0].text;
    if IsHeading(SummaryAsSplit(d)) {
      SaneMeans(d);
      GoReadsCut(d, text);
      GoShowsMeans(GoReadText(text + "\n"), d);
    } else {
      FollowsMeans(behind);
      GoReadsPublished(d, behind[..UntilHeading(behind)], text);
      SummaryAgrees(d);
      GoReadPrintedIff(AsRead(d));
      GoShowsAlike(GoReadText(text + "\n"), d);
    }
  }

  lemma GoShowsMeans(e: Entry, d: Draft)
    ensures e.summary == [] ==> !GoShows(e, d)
  {
  }

  lemma GoShowsAlike(e: Entry, d: Draft)
    requires GoTrim(Piece(d.summary)) == GoTrim(d.summary)
    ensures GoShows(e, AsRead(d)) <==> GoShows(e, d)
    ensures TakenByGo(AsRead(d).summary) <==> TakenByGo(d.summary)
  {
    hide GoTrim, ListedOf, CountLine;
  }

  lemma FollowsMeans(rest: seq<string>)
    requires Follows(rest)
    ensures forall i :: 0 <= i < UntilHeading(rest) ==> rest[..UntilHeading(rest)][i] == ""
  {
  }

  /** What the installer then shows. */
  lemma EntryOf(text: string, d: Draft)
    requires GoShows(GoReadText(text), d)
    ensures var e := ParseEntry(text);
            && e.headline == WithoutMarkers(GoTrim(d.headline)) && e.summary == WithoutMarkers(GoTrim(d.summary))
            && e.loose == [] && e.collapsed == WithoutMarkers(if d.count > 0 then GoTrim(CountLine(d.count)) else "")
            && e.groups == PlainGroups(ListedOf(Added, d.added) + ListedOf(Improved, d.improved) + ListedOf(Fixed, d.fixed))
  {
    hide GoTrim, WithoutMarkers, PlainGroups, CountLine, ListedOf, GoRead, SplitNewlines;
    assert PlainItems([]) == [];
  }
}
