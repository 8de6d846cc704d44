/** What the readers of the notes make of single lines, in plain strings: tools/changelog.py:11-99, installer/changelog_render.go:51-140. */
module NotesMeaning {
  import opened Options
  import opened Decimals
  import opened NotesText
  import opened NotesParse
  import opened NotesPrint
  import opened NotesRoundTrip
  import opened NotesGo

  // ---- white space ----

  const TABS := "\U{9}\U{a}\U{b}\U{c}\U{d}"
  const SEPARATORS := "\U{1c}\U{1d}\U{1e}\U{1f}"
  const BLANKS := " \U{85}\U{a0}\U{1680}\U{2000}\U{2001}\U{2002}\U{2003}\U{2004}\U{2005}\U{2006}\U{2007}\U{2008}\U{2009}\U{200a}\U{2028}\U{2029}\U{202f}\U{205f}\U{3000}"

  lemma SpacesAre(c: char)
    ensures PySpace(c) <==> c in TABS || c in SEPARATORS || c in BLANKS
    ensures GoSpace(c) <==> c in TABS || c in BLANKS
    ensures IsBreak(c) <==> c in "\U{a}\U{b}\U{c}\U{d}\U{1c}\U{1d}\U{1e}\U{85}\U{2028}\U{2029}"
  {
  }

  /** No white space at the ends. */
  ghost predicate Trimmed(s: string) {
    s != "" ==> !PySpace(s[0]) && !PySpace(s[|s| - 1])
  }

  lemma {:induction false} RightIs(s: string) returns (b: string)
    ensures s == RStrip(s) + b && Blank(b)
  {
    b := "";
    if s != "" && PySpace(s[|s| - 1]) {
      var rest := RightIs(s[..|s| - 1]);
      b := rest + [s[|s| - 1]];
      assert s == s[..|s| - 1] + [s[|s| - 1]];
    }
  }

  lemma {:induction false} LeftIs(s: string) returns (a: string)
    ensures s == a + LStrip(s) && Blank(a) && (LStrip(s) != "" ==> !PySpace(LStrip(s)[0]))
  {
    a := "";
    if s != "" && PySpace(s[0]) {
      var rest := LeftIs(s[1..]);
      a := [s[0]] + rest;
      assert s == [s[0]] + s[1..];
    }
  }

  /** Stripping takes white space off both ends and nothing else. */
  lemma StripIs(s: string) returns (a: string, b: string)
    ensures s == a + Strip(s) + b && Blank(a) && Blank(b) && Trimmed(Strip(s))
  {
    b := RightIs(s);
    a := LeftIs(RStrip(s));
    if Strip(s) != "" {
      assert RStrip(s)[|RStrip(s)| - 1] == Strip(s)[|Strip(s)| - 1];
    }
  }

  lemma {:induction false} StripNothing(s: string)
    requires Trimmed(s)
    ensures RStrip(s) == s && LStrip(s) == s
  {
  }

  // ---- one line for the parser ----

  lemma IndentedIsText(raw: string)
    requires raw != "" && raw[0] in " \t" && !Blank(raw)
    ensures RStrip(raw) != "" && RStrip(raw)[0] == raw[0]
    ensures GroupOf(RStrip(raw)).None? && BulletOf(RStrip(raw)).None?
    ensures HeadlineOf(RStrip(raw)).None? && CollapsedOf(RStrip(raw)).None?
  {
  }

  /** An indented line goes on with the last bullet, with one blank between, whatever it says. */
  lemma Continued(b: Body, raw: string)
    requires b.group.Some? && b.Items(b.group.value) != [] && raw != "" && raw[0] in " \t" && !Blank(raw)
    ensures var g, items := b.group.value, b.Items(b.group.value);
            Step(b, raw) == b.WithItems(g, items[..|items| - 1] + [items[|items| - 1] + " " + Strip(raw)])
  {
    IndentedIsText(raw);
    var items := b.Items(b.group.value);
    var last := items[|items| - 1] + " " + Strip(raw);
    assert items[|items| - 1 := last] == items[..|items| - 1] + [last];
    hide GroupOf, BulletOf, HeadlineOf, CollapsedOf, LStrip, RStrip;
  }

  lemma SolidBullet(b: Body, x: string)
    requires b.group.Some? && x != "" && Trimmed(x)
    ensures Step(b, "- " + x) == b.WithItems(b.group.value, b.Items(b.group.value) + [x])
  {
    TrimmedIsText(x);
    BulletLine(b, x);
    StripNothing(x);
    assert DropBlanks(x) == x;
    hide Step;
  }

  lemma WithTwice(b: Body, g: Group, x: seq<string>, y: seq<string>)
    ensures b.WithItems(g, x).Items(g) == x && b.WithItems(g, x).group == b.group
    ensures b.WithItems(g, x).WithItems(g, y) == b.WithItems(g, y)
  {
  }

  /** A bullet that is broken at a blank and goes on in an indented line reads like the unbroken one. */
  lemma WrappedReads(b: Body, x: string, y: string, indent: char)
    requires b.group.Some? && x != "" && y != "" && Trimmed(x) && Trimmed(y) && indent in " \t"
    ensures ReadBody(b, ["- " + x, [indent] + y]) == ReadBody(b, ["- " + x + " " + y])
  {
    hide Step, ReadBody, Trimmed, Body.Items, Body.WithItems, Strip, Blank;
    var g, items := b.group.value, b.Items(b.group.value);
    SolidBullet(b, x);
    WithTwice(b, g, items + [x], items + [x + " " + y]);
    IndentStrips(y, indent);
    Continued(b.WithItems(g, items + [x]), [indent] + y);
    assert (items + [x])[..|items|] == items;
    TrimmedSum(x, y);
    SolidBullet(b, x + " " + y);
    assert "- " + x + " " + y == "- " + (x + " " + y);
    ReadTwo(b, "- " + x, [indent] + y);
    ReadOne(b, "- " + x + " " + y);
  }

  lemma ReadTwo(b: Body, x: string, y: string)
    ensures ReadBody(b, [x, y]) == Step(Step(b, x), y)
  {
    hide Step;
    ReadMore(b, [x], [y]);
    ReadOne(b, x);
    ReadOne(Step(b, x), y);
    assert [x] + [y] == [x, y];
  }

  lemma TrimmedIsText(s: string)
    requires s != "" && Trimmed(s)
    ensures !Blank(s)
  {
    assert s[0] in s;
  }

  lemma TrimmedSum(x: string, y: string)
    requires x != "" && y != "" && Trimmed(x) && Trimmed(y)
    ensures Trimmed(x + " " + y)
  {
  }

  lemma IndentStrips(y: string, indent: char)
    requires y != "" && Trimmed(y) && indent in " \t"
    ensures Strip([indent] + y) == y && !Blank([indent] + y)
  {
    assert y[0] in [indent] + y;
    StripNothing(y);
    RStripKeeps([indent], y) by { TrimmedIsText(y); }
    assert ([indent] + y)[1..] == y;
  }

  /** Text at the margin that opens no markup belongs to the summary, or is dropped once a group is open. */
  lemma PlainLine(b: Body, raw: string)
    requires raw != "" && !PySpace(raw[0]) && raw[0] !in "#-*_"
    ensures Step(b, raw) == if b.group.None? then b.(summary := b.summary + [Strip(raw)]) else b
  {
    assert raw[0] in raw;
    assert RStrip(raw) != "" && RStrip(raw)[0] == raw[0];
    hide LStrip;
  }

  /** The first line in bold is the headline; another one is text. */
  lemma BoldLine(b: Body, text: string)
    requires text != ""
    ensures var line := "**" + text + "**";
            Step(b, line) == if b.headline == "" then b.(headline := text)
                             else if b.group.None? then b.(summary := b.summary + [line]) else b
  {
    var line := "**" + text + "**";
    assert line[|line| - 1] == '*' && line[0] == '*' && line[1] == '*';
    assert line[2..|line| - 2] == text && line[|line| - 2..] == "**";
    StripNothing(line);
    hide RStrip, LStrip, DropBlanks;
    assert GroupOf(line).None? && BulletOf(line).None? && CollapsedOf(line).None?;
  }

  /** Four asterisks are no headline, and two underscores no count. */
  lemma MarkersAlone(b: Body, line: string)
    requires line == "****" || line == "__"
    ensures Step(b, line) == if b.group.None? then b.(summary := b.summary + [line]) else b
  {
    StripNothing(line);
    hide RStrip, LStrip;
  }

  lemma GoMarkersAlone(e: Entry, line: string)
    requires line == "****" || line == "__"
    ensures GoStep(e, line) == if e.groups == [] && e.loose == [] then e.(summary := e.summary + [line]) else e
  {
    GoPlainText(line);
    hide GoTrim;
  }

  /** A line between underscores is the count, wherever it stands, and the last one counts. */
  lemma UnderscoredLine(b: Body, text: string)
    requires text != ""
    ensures Step(b, "_" + text + "_") == b.(collapsed := text)
  {
    var line := "_" + text + "_";
    assert line[|line| - 1] == '_' && line[0] == '_';
    assert line[1..|line| - 1] == text && line[|line| - 1..] == "_";
    StripNothing(line);
    assert GroupOf(line).None? && BulletOf(line).None? && HeadlineOf(line).None?;
  }

  /** The three titles; any other one opens no group and is text. */
  lemma TitleLine(b: Body, name: string)
    requires name != "" && Trimmed(name)
    ensures Step(b, "### " + name) ==
            if name == "New" then b.(group := Some(Added))
            else if name == "Improved" then b.(group := Some(Improved))
            else if name == "Fixed" then b.(group := Some(Fixed))
            else if b.group.None? then b.(summary := b.summary + ["### " + name]) else b
  {
    var line := "### " + name;
    assert line[|line| - 1] == name[|name| - 1] && line[0] == '#' && line[3..] == " " + name;
    StripNothing(line);
    assert (" " + name)[1..] == name && name[0] != ' ';
    assert DropBlanks(name) == name;
    assert DropBlanks(line[3..]) == name;
    assert BulletOf(line).None? && HeadlineOf(line).None? && CollapsedOf(line).None?;
  }

  /** A bullet before the first group is text. */
  lemma EarlyBullet(b: Body, text: string)
    requires b.group.None? && text != "" && Trimmed(text)
    ensures Step(b, "- " + text) == b.(summary := b.summary + ["- " + text])
  {
    var line := "- " + text;
    assert line[|line| - 1] == text[|text| - 1] && line[0] == '-';
    StripNothing(line);
    assert GroupOf(line).None? && HeadlineOf(line).None? && CollapsedOf(line).None?;
  }

  /** The summary's lines are shown with one blank between. */
  lemma SummaryIsJoined(lines: seq<string>, last: string)
    ensures JoinSpaced([]) == "" && JoinSpaced([last]) == last
    ensures lines != [] ==> JoinSpaced(lines + [last]) == JoinSpaced(lines) + " " + last
  {
    assert (lines + [last])[..|lines|] == lines;
  }

  // ---- the header ----

  ghost predicate AreDigits(s: string) {
    s != "" && forall c :: c in s ==> '0' <= c <= '9'
  }

  ghost predicate IsBetaLabel(s: string) {
    s != "" && forall c :: c in s ==> '0' <= c <= '9' || 'A' <= c <= 'Z' || 'a' <= c <= 'z' || c == '.'
  }

  ghost predicate TagOf(s: string, a: string, b: string, c: string, beta: string) {
    && AreDigits(a) && AreDigits(b) && AreDigits(c) && (beta == "" || IsBetaLabel(beta))
    && s == "v" + a + "." + b + "." + c + if beta == "" then "" else "-" + beta
  }

  lemma {:induction false} RunIs(s: string, digit: bool)
    ensures forall c :: c in s[..Run(s, digit)] ==> if digit then '0' <= c <= '9' else IsLabel(c)
    ensures Run(s, digit) < |s| ==> !(if digit then '0' <= s[Run(s, digit)] <= '9' else IsLabel(s[Run(s, digit)]))
  {
    hide IsLabel;
    if s != "" && ((digit && '0' <= s[0] <= '9') || (!digit && IsLabel(s[0]))) {
      RunIs(s[1..], digit);
      assert s[..Run(s, digit)] == [s[0]] + s[1..][..Run(s[1..], digit)];
    }
  }

  lemma {:induction false} RunOf(a: string, rest: string, digit: bool)
    requires forall c :: c in a ==> if digit then '0' <= c <= '9' else IsLabel(c)
    requires rest != "" ==> !(if digit then '0' <= rest[0] <= '9' else IsLabel(rest[0]))
    ensures Run(a + rest, digit) == |a|
  {
    hide IsLabel;
    if a == "" {
      assert a + rest == rest;
    } else {
      assert a[0] in a && (a + rest)[1..] == a[1..] + rest;
      assert forall c :: c in a[1..] ==> c in a;
      RunOf(a[1..], rest, digit);
    }
  }

  lemma AreLabels(s: string)
    ensures IsBetaLabel(s) <==> s != "" && forall c :: c in s ==> IsLabel(c)
  {
  }

  /** The digits in front of a text, and what follows them. */
  lemma DigitsFirst(s: string)
    ensures var n := Run(s, true);
            && s == s[..n] + s[n..] && (n > 0 ==> AreDigits(s[..n]))
  {
    RunIs(s, true);
  }

  lemma DigitsBefore(a: string, rest: string)
    requires AreDigits(a) && (rest != "" ==> rest[0] == '.' || rest[0] == '-')
    ensures Run(a + rest, true) == |a| && (a + rest)[|a|..] == rest
  {
    RunOf(a, rest, true);
  }

  lemma PointFirst(s: string, front: string)
    requires Starts(s, front)
    ensures s == front + s[|front|..]
  {
  }

  /** The end of a tag: nothing, or a hyphen and a beta's label. */
  predicate IsEnd(rest: string) {
    rest == "" || (Starts(rest, "-") && |rest| > 1 && Run(rest[1..], false) == |rest| - 1)
  }

  lemma EndIs(rest: string)
    requires IsEnd(rest)
    ensures rest == "" || IsBetaLabel(rest[1..])
    ensures rest != "" ==> rest == "-" + rest[1..] && rest[1..] != ""
  {
    if rest != "" {
      RunIs(rest[1..], false);
      assert rest[1..][..|rest| - 1] == rest[1..];
      AreLabels(rest[1..]);
    }
  }

  lemma EndReads(beta: string)
    requires IsBetaLabel(beta)
    ensures IsEnd("-" + beta)
  {
    AreLabels(beta);
    RunOf(beta, "", false);
    assert ("-" + beta)[1..] == beta && beta + "" == beta;
  }

  lemma TagIs(s: string)
    requires IsTag(s)
    ensures exists a, b, c, beta :: TagOf(s, a, b, c, beta)
  {
    hide IsLabel, IsBetaLabel, Run, AreDigits;
    DigitsFirst(s[1..]);
    var a, afterA := s[1..][..Run(s[1..], true)], s[1..][Run(s[1..], true)..];
    assert afterA == s[1 + Run(s[1..], true)..];
    DigitsFirst(afterA[1..]);
    var b, afterB := afterA[1..][..Run(afterA[1..], true)], afterA[1..][Run(afterA[1..], true)..];
    assert afterB == afterA[1 + Run(afterA[1..], true)..];
    DigitsFirst(afterB[1..]);
    var c, rest := afterB[1..][..Run(afterB[1..], true)], afterB[1..][Run(afterB[1..], true)..];
    assert rest == afterB[1 + Run(afterB[1..], true)..];
    PointFirst(s, "v");
    PointFirst(afterA, ".");
    PointFirst(afterB, ".");
    EndIs(rest);
    TagFrom(s, a, b, c, afterA, afterB, rest);
  }

  lemma Regrouped(a: string, b: string, c: string, end: string)
    ensures "v" + a + "." + b + "." + c + end == "v" + a + ("." + b + ("." + c + end))
    ensures "v" + a + "." + b + "." + c + end == "v" + (a + ("." + (b + ("." + (c + end)))))
  {
  }

  lemma TagFrom(s: string, a: string, b: string, c: string, afterA: string, afterB: string, rest: string)
    requires s == "v" + (a + afterA) && afterA == "." + (b + afterB) && afterB == "." + (c + rest)
    requires AreDigits(a) && AreDigits(b) && AreDigits(c)
    requires rest == "" || (IsBetaLabel(rest[1..]) && rest == "-" + rest[1..] && rest[1..] != "")
    ensures exists a, b, c, beta :: TagOf(s, a, b, c, beta)
  {
    hide AreDigits, IsBetaLabel;
    Regrouped(a, b, c, rest);
    if rest == "" {
      assert TagOf(s, a, b, c, "");
    } else {
      assert TagOf(s, a, b, c, rest[1..]);
    }
  }

  lemma TagFromRuns(s: string, afterA: string, afterB: string, rest: string)
    requires Starts(s, "v") && Run(s[1..], true) > 0 && afterA == s[1 + Run(s[1..], true)..]
    requires Starts(afterA, ".") && Run(afterA[1..], true) > 0 && afterB == afterA[1 + Run(afterA[1..], true)..]
    requires Starts(afterB, ".") && Run(afterB[1..], true) > 0 && rest == afterB[1 + Run(afterB[1..], true)..]
    requires IsEnd(rest)
    ensures IsTag(s)
  {
    hide Run;
  }

  /** One number of a tag, and what follows it. */
  lemma NumberFirst(front: string, a: string, rest: string)
    requires |front| == 1 && AreDigits(a) && (rest != "" ==> rest[0] == '.' || rest[0] == '-')
    ensures var s := front + a + rest;
            Starts(s, front) && Run(s[1..], true) == |a| > 0 && s[1 + |a|..] == rest
  {
    assert (front + a + rest)[1..] == a + rest;
    DigitsBefore(a, rest);
  }

  lemma TagReads(s: string, a: string, b: string, c: string, beta: string)
    requires TagOf(s, a, b, c, beta)
    ensures IsTag(s)
  {
    var end := if beta == "" then "" else "-" + beta;
    hide IsLabel, IsBetaLabel, Run, AreDigits, IsTag, Starts;
    if beta != "" {
      EndReads(beta);
    }
    hide IsEnd;
    var afterB := "." + c + end;
    var afterA := "." + b + afterB;
    Regrouped(a, b, c, end);
    NumberFirst("v", a, afterA);
    NumberFirst(".", b, afterB);
    NumberFirst(".", c, end);
    TagFromRuns(s, afterA, afterB, end);
  }

  /** A tag is v, three numbers with points between them, and for a beta a hyphen and a beta. */
  lemma TagIff(s: string)
    ensures IsTag(s) <==> exists a, b, c, beta :: TagOf(s, a, b, c, beta)
  {
    hide IsTag, TagOf;
    if IsTag(s) {
      TagIs(s);
    }
    if a, b, c, beta :| TagOf(s, a, b, c, beta) {
      TagReads(s, a, b, c, beta);
    }
  }

  /** A date is four digits, two and two with hyphens between them. */
  lemma DateIff(s: string)
    ensures IsDate(s) <==>
      |s| == 10 && AreDigits(s[..4]) && s[4] == '-' && AreDigits(s[5..7]) && s[7] == '-' && AreDigits(s[8..])
  {
    if |s| == 10 {
      var y, m, d := s[..4], s[5..7], s[8..];
      if AreDigits(y) && AreDigits(m) && AreDigits(d) {
        assert y[0] in y && y[1] in y && y[2] in y && y[3] in y && m[0] in m && m[1] in m && d[0] in d && d[1] in d;
      }
    }
  }

  ghost predicate Spaced(s: string) {
    s != "" && forall c :: c in s ==> c == ' '
  }

  /** How a section's header is written. */
  ghost predicate HeaderOf(line: string, h: Header, gaps: seq<string>, dash: string, end: string) {
    && |gaps| == 4 && Spaced(gaps[0]) && Spaced(gaps[1]) && Spaced(gaps[2]) && Spaced(gaps[3]) && Blank(end)
    && (dash == "--" || dash == "\U{2013}" || dash == "\U{2014}")
    && IsTag(h.tag) && IsDate(h.date) && (h.channel == "beta" || h.channel == "stable")
    && InOrder(line, gaps[0], h.tag, gaps[1], dash, gaps[2], h.date, gaps[3], h.channel, end)
  }

  ghost predicate InOrder(line: string, g0: string, tag: string, g1: string, dash: string, g2: string, date: string,
                          g3: string, channel: string, end: string) {
    line == "##" + g0 + tag + g1 + dash + g2 + date + g3 + "(" + channel + ")" + end
  }

  ghost predicate Joins(s: string, gap: string, word: string, rest: string) {
    s == gap + word + rest
  }

  lemma {:induction false} BlanksFirst(s: string) returns (gap: string)
    ensures s == gap + DropBlanks(s) && (forall c :: c in gap ==> c == ' ')
    ensures s != "" && s[0] == ' ' ==> Spaced(gap)
  {
    gap := "";
    if s != "" && s[0] == ' ' {
      gap := BlanksFirst(s[1..]);
      gap := " " + gap;
      assert s == " " + s[1..];
    }
  }

  lemma WordFirst(s: string) returns (gap: string)
    ensures var (word, rest) := NextWord(s);
            && Joins(s, gap, word, rest) && (s != "" && s[0] == ' ' ==> Spaced(gap)) && (rest != "" ==> rest[0] == ' ')
            && (s == "" ==> word == "")
  {
    gap := BlanksFirst(s);
    var t := DropBlanks(s);
    hide DropBlanks, Spaced;
    JoinsWord(s, gap, t, Word(t));
  }

  lemma JoinsWord(s: string, gap: string, t: string, n: nat)
    requires s == gap + t && n <= |t|
    ensures Joins(s, gap, t[..n], t[n..])
  {
    assert t == t[..n] + t[n..];
  }

  lemma Assembled(line: string, l: string, g0: string, tag: string, r1: string, g1: string, dash: string, r2: string,
                  g2: string, date: string, r3: string, g3: string, channel: string, end: string)
    requires Joins(line, "", "##", l) && Joins(l, g0, tag, r1) && Joins(r1, g1, dash, r2) && Joins(r2, g2, date, r3)
    requires Joins(r3, g3, "(" + channel + ")", end)
    ensures InOrder(line, g0, tag, g1, dash, g2, date, g3, channel, end)
  {
    assert r3 == g3 + "(" + channel + ")" + end;
    assert r2 == g2 + date + g3 + "(" + channel + ")" + end;
    assert r1 == g1 + dash + g2 + date + g3 + "(" + channel + ")" + end;
    assert l == g0 + tag + g1 + dash + g2 + date + g3 + "(" + channel + ")" + end;
  }

  lemma ChannelLast(s: string, channel: string) returns (gap: string, end: string)
    requires RStrip(DropBlanks(s)) == "(" + channel + ")" && s != "" && s[0] == ' '
    ensures Joins(s, gap, "(" + channel + ")", end) && Spaced(gap) && Blank(end)
  {
    gap := BlanksFirst(s);
    end := RightIs(DropBlanks(s));
  }

  lemma HeadingFirst(line: string)
    requires Starts(line, "## ")
    ensures Joins(line, "", "##", line[2..]) && line[2..] != "" && line[2..][0] == ' '
  {
    assert "" + "##" + line[2..] == line;
  }

  /** The words of a header, and the rest behind each. */
  lemma HeaderParts(line: string)
    requires ReadHeader(line).Some?
    ensures Starts(line, "## ")
    ensures var h := ReadHeader(line).value;
            var (tag, afterTag) := NextWord(line[2..]);
            var (dash, afterDash) := NextWord(afterTag);
            var (date, afterDate) := NextWord(afterDash);
            && IsTag(tag) && IsDate(date) && (dash == "--" || dash == "\U{2013}" || dash == "\U{2014}")
            && afterDate != "" && h.tag == tag && h.date == date && (h.channel == "beta" || h.channel == "stable")
            && RStrip(DropBlanks(afterDate)) == "(" + h.channel + ")"
  {
    hide IsTag, IsDate, RStrip, DropBlanks, NextWord;
  }

  /** The tag and the dash. */
  lemma FrontOf(line: string) returns (g0: string, g1: string, dash: string, afterTag: string, afterDash: string)
    requires ReadHeader(line).Some?
    ensures |line| >= 2
    ensures var h := ReadHeader(line).value;
            && Joins(line, "", "##", line[2..]) && Joins(line[2..], g0, h.tag, afterTag) && Joins(afterTag, g1, dash, afterDash)
            && Spaced(g0) && Spaced(g1) && (dash == "--" || dash == "\U{2013}" || dash == "\U{2014}") && IsTag(h.tag)
    ensures afterDash == NextWord(NextWord(line[2..]).1).1 && (afterDash != "" ==> afterDash[0] == ' ')
  {
    HeaderParts(line);
    hide *;
    HeadingFirst(line);
    var h := ReadHeader(line).value;
    afterTag, dash, afterDash := NextWord(line[2..]).1, NextWord(NextWord(line[2..]).1).0, NextWord(NextWord(line[2..]).1).1;
    g0 := WordFirst(line[2..]);
    g1 := WordFirst(afterTag);
  }

  /** The date and the channel. */
  lemma BackOf(line: string, afterDash: string) returns (g2: string, g3: string, end: string, afterDate: string)
    requires ReadHeader(line).Some? && |line| >= 2 && afterDash == NextWord(NextWord(line[2..]).1).1
    requires afterDash != "" ==> afterDash[0] == ' '
    ensures var h := ReadHeader(line).value;
            && Joins(afterDash, g2, h.date, afterDate) && Joins(afterDate, g3, "(" + h.channel + ")", end)
            && Spaced(g2) && Spaced(g3) && Blank(end) && IsDate(h.date) && (h.channel == "beta" || h.channel == "stable")
  {
    HeaderParts(line);
    hide *;
    var h := ReadHeader(line).value;
    afterDate := NextWord(afterDash).1;
    WordsAreThere(h.tag, h.date);
    g2 := WordFirst(afterDash);
    g3, end := ChannelLast(afterDate, h.channel);
  }

  /** Nothing else is read as a header than a tag, a dash, a date and a channel in brackets, with blanks between. */
  lemma HeaderMeans(line: string)
    requires ReadHeader(line).Some?
    ensures exists gaps, dash, end :: HeaderOf(line, ReadHeader(line).value, gaps, dash, end)
  {
    hide *;
    var h := ReadHeader(line).value;
    var g0, g1, dash, afterTag, afterDash := FrontOf(line);
    var g2, g3, end, afterDate := BackOf(line, afterDash);
    Assembled(line, line[2..], g0, h.tag, afterTag, g1, dash, afterDash, g2, h.date, afterDate, g3, h.channel, end);
    IsHeaderOf(line, h, g0, g1, g2, g3, dash, end);
  }

  lemma WordsAreThere(tag: string, date: string)
    requires IsTag(tag) && IsDate(date)
    ensures tag != "" && date != ""
  {
  }

  lemma IsHeaderOf(line: string, h: Header, g0: string, g1: string, g2: string, g3: string, dash: string, end: string)
    requires Spaced(g0) && Spaced(g1) && Spaced(g2) && Spaced(g3) && Blank(end) && IsTag(h.tag) && IsDate(h.date)
    requires (dash == "--" || dash == "\U{2013}" || dash == "\U{2014}") && (h.channel == "beta" || h.channel == "stable")
    requires InOrder(line, g0, h.tag, g1, dash, g2, h.date, g3, h.channel, end)
    ensures HeaderOf(line, h, [g0, g1, g2, g3], dash, end)
  {
    hide IsTag, IsDate, Spaced, Blank, InOrder;
  }

  lemma {:induction false} NoHyphen(s: string)
    requires AreDigits(s)
    ensures '-' !in s
  {
  }

  /** A tag with a label after a hyphen is a beta's, any other one a stable release's. */
  lemma ChannelIs(tag: string, date: string, a: string, b: string, c: string, beta: string)
    requires TagOf(tag, a, b, c, beta)
    ensures HeaderLine(tag, date) == "## " + tag + " -- " + date + " (" + (if beta == "" then "stable" else "beta") + ")"
  {
    NoHyphen(a);
    NoHyphen(b);
    NoHyphen(c);
    if beta != "" {
      var front := "v" + a + "." + b + "." + c;
      assert tag == front + ("-" + beta) && ("-" + beta)[0] == '-';
      assert tag[|front|] == '-';
    }
  }

  /** What validation asks of a draft. */
  lemma ValidatedIff(d: Draft, minCount: int, maxItems: nat, maxSummary: nat)
    ensures Validated(d, minCount, maxItems, maxSummary) <==>
      && (forall t :: t == d.headline || t == d.summary || t in d.added || t in d.improved || t in d.fixed ==> Allowed(t))
      && (exists c :: c in d.headline && !PySpace(c)) && (exists c :: c in d.summary && !PySpace(c))
      && |d.headline| <= 60 && |d.summary| <= maxSummary && |d.added| + |d.improved| + |d.fixed| <= maxItems
      && (forall t :: t in d.added || t in d.improved || t in d.fixed ==> exists c :: c in t && !PySpace(c))
      && d.count >= 0 && d.count >= minCount
  {
    AllowedIff(d);
    ItemsAreText(d);
    forall t: string
      ensures !Blank(t) <==> exists c :: c in t && !PySpace(c)
    {
    }
    hide Blank, PySpace, Draft.Texts, Draft.Items, FORBIDDEN;
  }

  ghost predicate Allowed(t: string) {
    forall c :: c in t ==> c != '\n' && c != '\r' && c != '[' && c != ']' && c != '<' && c != '>' && c != '`'
  }

  lemma AllowedMeans(t: string)
    ensures Allowed(t) <==> forall c :: c in t ==> c !in FORBIDDEN
  {
    forall c: char
      ensures c in FORBIDDEN <==> c == '\n' || c == '\r' || c == '[' || c == ']' || c == '<' || c == '>' || c == '`'
    {
      ForbiddenIs(c);
    }
    hide FORBIDDEN;
  }

  lemma AllowedIff(d: Draft)
    ensures (forall t :: t in d.Texts() ==> forall c :: c in t ==> c !in FORBIDDEN) <==>
            (forall t :: t == d.headline || t == d.summary || t in d.added || t in d.improved || t in d.fixed ==> Allowed(t))
  {
    forall t
      ensures t in d.Texts() <==> t == d.headline || t == d.summary || t in d.added || t in d.improved || t in d.fixed
    {
      assert t in [d.headline, d.summary] <==> t == d.headline || t == d.summary;
    }
    hide Draft.Texts, FORBIDDEN, Allowed;
    if forall t :: t in d.Texts() ==> forall c :: c in t ==> c !in FORBIDDEN {
      forall t | t == d.headline || t == d.summary || t in d.added || t in d.improved || t in d.fixed
        ensures Allowed(t)
      {
        assert t in d.Texts();
        AllowedMeans(t);
      }
    }
    if forall t :: t == d.headline || t == d.summary || t in d.added || t in d.improved || t in d.fixed ==> Allowed(t) {
      forall t | t in d.Texts()
        ensures forall c :: c in t ==> c !in FORBIDDEN
      {
        AllowedMeans(t);
      }
    }
  }

  lemma ForbiddenIs(c: char)
    ensures c in FORBIDDEN <==> c == '\n' || c == '\r' || c == '[' || c == ']' || c == '<' || c == '>' || c == '`'
  {
    assert FORBIDDEN[0] == '\n' && FORBIDDEN[1] == '\r' && FORBIDDEN[2] == '[' && FORBIDDEN[3] == ']';
    assert FORBIDDEN[4] == '<' && FORBIDDEN[5] == '>' && FORBIDDEN[6] == '`';
  }

  lemma ItemsAreText(d: Draft)
    ensures (forall g: Group, i :: 0 <= i < |d.Items(g)| ==> !Blank(d.Items(g)[i])) <==>
            (forall t :: t in d.added || t in d.improved || t in d.fixed ==> !Blank(t))
  {
    hide Blank;
    if forall g: Group, i :: 0 <= i < |d.Items(g)| ==> !Blank(d.Items(g)[i]) {
      forall t | t in d.added || t in d.improved || t in d.fixed
        ensures !Blank(t)
      {
        var g := if t in d.added then Added else if t in d.improved then Improved else Fixed;
        var i :| 0 <= i < |d.Items(g)| && d.Items(g)[i] == t;
      }
    }
    if forall t :: t in d.added || t in d.improved || t in d.fixed ==> !Blank(t) {
      forall g: Group, i | 0 <= i < |d.Items(g)|
        ensures !Blank(d.Items(g)[i])
      {
        assert d.Items(g)[i] in d.Items(g);
      }
    }
  }

  // ---- the count ----

  /** The line for what the groups leave out: one change, or how many. */
  lemma CountSays(n: nat)
    ensures n == 1 ==> CountLine(n) == "Plus 1 smaller fix and internal change."
    ensures n != 1 ==> exists digits :: Value(digits) == n && CountLine(n) == "Plus " + digits + " smaller fixes and internal changes."
  {
    DigitsSay(n);
    hide Digits;
  }

  // ---- one line for the installer's reader ----

  ghost predicate GoTrimmed(s: string) {
    s != "" ==> !GoSpace(s[0]) && !GoSpace(s[|s| - 1])
  }

  /** An indented line that opens no markup goes on with the last bullet of the last group. */
  lemma GoContinued(e: Entry, text: string, indent: char)
    requires e.groups != [] && e.groups[|e.groups| - 1].items != [] && indent in " \t"
    requires text != "" && GoTrimmed(text) && text[0] !in "#-*_"
    ensures var last := e.groups[|e.groups| - 1];
            var n := |last.items| - 1;
            GoStep(e, [indent] + text) ==
              e.(groups := e.groups[..|e.groups| - 1]
                           + [Listed(last.title, last.items[..n] + [last.items[n] + " " + text])])
  {
    GoIndent(text, indent);
    var last := e.groups[|e.groups| - 1];
    var n := |last.items| - 1;
    var more := last.items[n] + " " + text;
    assert last.items[n := more] == last.items[..n] + [more];
    var long := Listed(last.title, last.items[..n] + [more]);
    assert e.groups[|e.groups| - 1 := long] == e.groups[..|e.groups| - 1] + [long];
    hide GoTrim;
  }

  lemma GoIndent(text: string, indent: char)
    requires text != "" && GoTrimmed(text) && indent in " \t"
    ensures GoTrim([indent] + text) == text
  {
    var s := [indent] + text;
    assert s[1..] == text && s[|s| - 1] == text[|text| - 1] && s[0] == indent;
    assert GoTrimRight(s) == s && GoTrimLeft(text) == text;
    assert GoTrimLeft(s) == GoTrimLeft(s[1..]);
  }

  lemma GoPlainText(text: string)
    requires text != "" && GoTrimmed(text)
    ensures GoTrim(text) == text
  {
  }

  /** Text at the margin that opens no markup is the summary's until the first bullet or group, and dropped after. */
  lemma GoPlainLine(e: Entry, text: string)
    requires text != "" && GoTrimmed(text) && text[0] !in "#-*_"
    ensures GoStep(e, text) == if e.groups == [] && e.loose == [] then e.(summary := e.summary + [text]) else e
  {
    GoPlainText(text);
    hide GoTrim;
  }

  /** A bullet belongs to the last group, or to none before the first. */
  lemma GoBulletGoes(e: Entry, item: string)
    requires item != "" && GoTrimmed(item)
    ensures GoStep(e, "- " + item) ==
            if e.groups == [] then e.(loose := e.loose + [item])
            else
              var last := e.groups[|e.groups| - 1];
              e.(groups := e.groups[..|e.groups| - 1] + [Listed(last.title, last.items + [item])])
  {
    var line := "- " + item;
    assert line[|line| - 1] == item[|item| - 1] && line[0] == '-' && line[2..] == item;
    GoPlainText(line);
    GoPlainText(item);
    if e.groups != [] {
      var last := e.groups[|e.groups| - 1];
      var more := Listed(last.title, last.items + [item]);
      assert e.groups[|e.groups| - 1 := more] == e.groups[..|e.groups| - 1] + [more];
    }
    hide GoTrim;
  }

  /** Any title opens a group of its own. */
  lemma GoTitleLine(e: Entry, name: string)
    requires name != "" && GoTrimmed(name)
    ensures GoStep(e, "### " + name) == e.(groups := e.groups + [Listed(name, [])])
  {
    var line := "### " + name;
    assert line[|line| - 1] == name[|name| - 1] && line[0] == '#' && line[3..] == [' '] + name;
    GoPlainText(line);
    GoIndent(name, ' ');
    hide GoTrim;
  }

  /** The first line in bold is the headline. */
  lemma GoBoldLine(e: Entry, text: string)
    requires text != "" && GoTrimmed(text)
    ensures var line := "**" + text + "**";
            GoStep(e, line) == if e.headline == "" then e.(headline := text)
                               else if e.groups == [] && e.loose == [] then e.(summary := e.summary + [line]) else e
  {
    var line := "**" + text + "**";
    assert line[|line| - 1] == '*' && line[0] == '*' && line[1] == '*';
    assert line[2..|line| - 2] == text && line[|line| - 2..] == "**";
    GoPlainText(line);
    GoPlainText(text);
    hide GoTrim;
  }

  /** Code loses its backticks, and nothing inside it is touched. */
  lemma CodeIsShown(code: string, rest: string)
    requires code != "" && '`' !in code && '\n' !in code
    ensures WithoutMarkers("`" + code + "`" + rest) == code + WithoutMarkers(rest)
  {
    var s := "`" + code + "`" + rest;
    assert s[1..] == code + ("`" + rest);
    SpanIs(code, "`" + rest, '`');
    assert s[1..1 + |code|] == code && s[1 + |code|..] == "`" + rest && s[|code| + 2..] == rest;
  }

  /** Bold text loses its asterisks, and code inside it its backticks. */
  lemma BoldIsShown(text: string, rest: string)
    requires text != "" && '*' !in text && '\n' !in text
    ensures WithoutMarkers("**" + text + "**" + rest) == WithoutMarkers(text) + WithoutMarkers(rest)
  {
    var s := "**" + text + "**" + rest;
    assert s[2..] == text + ("**" + rest);
    SpanIs(text, "**" + rest, '*');
    assert s[2..2 + |text|] == text && s[2 + |text|..] == "**" + rest && s[|text| + 4..] == rest;
    hide Span;
    assert s[0] == '*' && Starts(s, "**") && Starts(s[2 + Span(s[2..], '*')..], "**");
    hide Starts;
  }

  lemma {:induction false} SpanIs(s: string, rest: string, mark: char)
    requires mark !in s && '\n' !in s && rest != "" && rest[0] == mark
    ensures Span(s + rest, mark) == |s|
  {
    if s == "" {
      assert s + rest == rest;
    } else {
      assert s[0] in s && (s + rest)[1..] == s[1..] + rest;
      assert forall c :: c in s[1..] ==> c in s;
      SpanIs(s[1..], rest, mark);
    }
  }

  /** A character that is no marker is shown as it is. */
  lemma OtherIsShown(c: char, rest: string)
    requires c != '`' && c != '*'
    ensures WithoutMarkers([c] + rest) == [c] + WithoutMarkers(rest)
  {
    assert ([c] + rest)[1..] == rest;
  }
}
