/**
 * Drafts that pass validation (tools/draft_changelog.py:179-222) and are not read back: their summary is taken for
 * something else, or a field has a line break that only Python knows of.
 */
module NotesInstances {
  import opened NotesText
  import opened NotesParse
  import opened NotesPrint
  import opened NotesPieces
  import opened NotesRoundTrip
  import opened NotesGo
  import opened NotesAgree
  import opened Options

  function With(summary: string): Draft {
    Draft("Title", summary, ["a"], [], [], 0)
  }

  predicate Harmless(s: string) {
    forall i :: 0 <= i < |s| ==> s[i] !in FORBIDDEN
  }

  /** A short summary of harmless characters makes a valid draft. */
  lemma IsValid(summary: string)
    requires Harmless(summary) && !Blank(summary) && |summary| <= 320
    ensures Validated(With(summary), 0, 6, 320)
  {
    var d := With(summary);
    assert d.Texts() == ["Title", summary, "a"];
    assert Harmless("Title") && Harmless("a");
    assert "Title"[0] in "Title" && "a"[0] in "a";
    assert !Blank("Title") && !Blank("a");
    forall t | t in d.Texts()
      ensures forall c :: c in t ==> c !in FORBIDDEN
    {
      assert t == "Title" || t == summary || t == "a";
      assert Harmless(t);
    }
    forall g: Group, i | 0 <= i < |d.Items(g)|
      ensures !Blank(d.Items(g)[i])
    {
      assert d.Items(g)[i] == "a";
    }
  }

  lemma IsText(s: string)
    requires s != "" && !PySpace(s[0])
    ensures !Blank(s)
  {
    assert s[0] in s;
  }

  /** A summary without breaks or white space at its ends is split into itself. */
  lemma OneLineSummary(s: string)
    requires OneLine(s) && s != "" && !PySpace(s[|s| - 1]) && !PySpace(s[0])
    ensures OneLines(With(s)) && Piece(s) == s && RStrip(s) == s && SummaryAsSplit(With(s)) == s
  {
    hide IsBreak;
    NoBreakIn(s);
    BreakIs(s, |s|);
    assert s[..|s|] == s;
    assert Strip(s) == s;
    OthersAreOneLine();
    assert With(s).added[0] == "a";
  }

  lemma OthersAreOneLine()
    ensures OneLine("Title") && OneLine(RStrip("a"))
  {
    assert RStrip("a") == "a";
  }

  const FORGED := "## v9.9.9 -- 2026-01-01 (stable)"

  lemma ForgedIsHarmless()
    ensures Harmless(FORGED) && |FORGED| <= 320
  {
  }

  lemma TagReads()
    ensures IsTag("v9.9.9") && ChannelFor("v9.9.9") == "stable"
  {
    var rest := "9.9.9";
    assert "v9.9.9"[1..] == rest;
    assert rest[1..] == ".9.9" && Run(rest[1..], true) == 0 && Run(rest, true) == 1;
    assert "v9.9.9"[2..] == ".9.9";
    assert ".9.9"[1..] == "9.9" && "9.9"[1..] == ".9" && Run(".9", true) == 0 && Run("9.9", true) == 1;
    assert ".9.9"[2..] == ".9";
    assert ".9"[1..] == "9" && "9"[1..] == "" && Run("", true) == 0 && Run("9", true) == 1;
    assert ".9"[2..] == "";
  }

  lemma DateReads()
    ensures IsDate("2026-01-01")
  {
  }

  lemma ForgedIs()
    ensures FORGED == HeaderLine("v9.9.9", "2026-01-01")
  {
    TagReads();
    hide ChannelFor;
    ForgedTag();
    assert "## v9.9.9 -- " + "2026-01-01" == "## v9.9.9 -- 2026-01-01";
    ForgedEnd();
  }

  lemma ForgedTag()
    ensures "## " + "v9.9.9" + " -- " == "## v9.9.9 -- "
  {
    assert "## " + "v9.9.9" == "## v9.9.9";
  }

  lemma ForgedEnd()
    ensures "## v9.9.9 -- 2026-01-01" + " (" + "stable" + ")" == FORGED
  {
    assert "## v9.9.9 -- 2026-01-01" + " (" == "## v9.9.9 -- 2026-01-01 (";
    assert "## v9.9.9 -- 2026-01-01 (" + "stable" == "## v9.9.9 -- 2026-01-01 (stable";
  }

  /**
   * The summary of a valid draft that is a section's header: what the change log then holds first is cut short, and a
   * section with that header, which nobody drafted, comes next.
   */
  lemma HeadingIsForged(tag: string, date: string, rest: string)
    requires IsTag(tag) && IsDate(date) && Follows(SplitLines(rest))
    ensures Validated(With(FORGED), 0, 6, 320)
    ensures var all := Parse(Render(tag, date, With(FORGED)) + rest);
            |all| > 1 && !Shows(all[0].body, With(FORGED)) && all[1].header == Header("v9.9.9", "2026-01-01", "stable")
  {
    hide *;
    ForgedIsText();
    ForgedIsHarmless();
    IsValid(FORGED);
    ValidatedIsSane(With(FORGED), 0, 6, 320);
    TagReads();
    DateReads();
    ForgedIs();
    HeaderReads("v9.9.9", "2026-01-01");
    OneLineSummary(FORGED);
    RoundTrip(tag, date, With(FORGED), rest);
    ReadsBackMeans(With(FORGED));
  }

  lemma ForgedIsText()
    ensures !Blank(FORGED) && FORGED != "" && !PySpace(FORGED[|FORGED| - 1]) && !PySpace(FORGED[0])
  {
    IsText(FORGED);
  }

  /** What makes such a draft valid and its summary read as it stands. */
  lemma StandsAsIs(s: string)
    requires Harmless(s) && 0 < |s| <= 320 && OneLine(s) && !PySpace(s[0]) && !PySpace(s[|s| - 1])
    ensures Validated(With(s), 0, 6, 320) && Sane(With(s)) && NoReturns(With(s)) && With(s).summary == s
    ensures OneLines(With(s)) && Piece(s) == s && RStrip(s) == s && SummaryAsSplit(With(s)) == s
  {
    hide OneLine, IsBreak, Sane, NoReturns, Validated, OneLines, Piece, RStrip, SummaryAsSplit, Harmless, PySpace;
    IsText(s);
    IsValid(s);
    ValidatedIsSane(With(s), 0, 6, 320);
    OneLineSummary(s);
  }

  lemma GroupTitle()
    ensures var s := "### New";
            && Harmless(s) && OneLine(s) && !PySpace(s[0]) && !PySpace(s[|s| - 1]) && |s| == 7
            && GroupOf(s) == Some(Added)
  {
    var s := "### New";
    assert s[3..] == " New" && " New"[1..] == "New" && DropBlanks("New") == "New" && DropBlanks(" New") == "New";
  }

  /** A summary that is a group's title is taken for one. */
  lemma GroupIsTaken()
    ensures Validated(With("### New"), 0, 6, 320) && !ReadsBack(With("### New"))
    ensures !Shows(ReadBody(EMPTY, BodyLines(With("### New"))), With("### New"))
  {
    hide *;
    GroupTitle();
    StandsAsIs("### New");
    ReadPrintedIff(With("### New"));
    ReadsBackMeans(With("### New"));
  }

  lemma Dashed()
    ensures var s := "- Maps";
            && Harmless(s) && OneLine(s) && !PySpace(s[0]) && !PySpace(s[|s| - 1]) && |s| == 6
            && GroupOf(s).None? && CollapsedOf(s).None? && !IsHeading(s)
  {
  }

  lemma DashedIsTaken()
    ensures TakenByGo("- Maps")
  {
    SolidTrims("- Maps");
  }

  /** A summary that opens with a dash is the change log's summary, and a bullet to the installer. */
  lemma BulletIsTaken()
    ensures Validated(With("- Maps"), 0, 6, 320) && ReadsBack(With("- Maps"))
    ensures !GoShows(GoRead(NO_ENTRY, BodyLines(With("- Maps"))), With("- Maps"))
  {
    hide *;
    Dashed();
    DashedIsTaken();
    StandsAsIs("- Maps");
    GoReadPrintedIff(With("- Maps"));
    ReadsBackMeans(With("- Maps"));
  }

  /** A line separator passes validation, and splits the summary in two. */
  lemma SeparatorSplits()
    ensures Validated(With("One\U{2028}two"), 0, 6, 320) && !ReadsBack(With("One\U{2028}two"))
  {
    var s := "One\U{2028}two";
    IsText(s);
    assert Harmless(s);
    IsValid(s);
    assert Strip(s) == s && s[3] in s && IsBreak(s[3]);
    assert !OneLine(Strip(s));
  }
}
