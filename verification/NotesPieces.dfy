/**
 * A text with other line breaks than the newline is written out as one line and split into several
 * (tools/changelog.py:31-37). Blank pieces and white space behind a piece make no difference to the parser.
 */
module NotesPieces {
  import opened NotesText
  import opened NotesParse
  import opened NotesPrint
  import opened Options

  /** The lines that one written line is split into. */
  function Pieces(line: string): (pieces: seq<string>)
    ensures pieces != []
  {
    var n := FirstBreak(line);
    if n == |line| then [line] else [line[..n]] + Pieces(line[n + 1..])
  }

  function AllPieces(lines: seq<string>): seq<string> {
    if lines == [] then [] else AllPieces(lines[..|lines| - 1]) + Pieces(lines[|lines| - 1])
  }

  predicate NoReturn(s: string) {
    '\r' !in s
  }

  lemma {:induction false} BreakIs(s: string, n: nat)
    requires n <= |s| && (n < |s| ==> IsBreak(s[n])) && forall k :: 0 <= k < n ==> !IsBreak(s[k])
    ensures FirstBreak(s) == n
  {
  }

  lemma {:induction false} SplitAt(t: string, n: nat)
    requires n < |t| && FirstBreak(t) == n && t[n] != '\r'
    ensures SplitLines(t) == [t[..n]] + SplitLines(t[n + 1..])
  {
    hide FirstBreak, IsBreak;
  }

  lemma {:induction false} PiecesAt(line: string)
    ensures var n := FirstBreak(line);
            Pieces(line) == if n == |line| then [line] else [line[..n]] + Pieces(line[n + 1..])
  {
    hide FirstBreak, IsBreak;
  }

  /** The first break of a written line is its own, or else the newline behind it. */
  lemma WrittenBreak(line: string, t: string)
    ensures FirstBreak(line + "\n" + t) == FirstBreak(line)
  {
    var whole, n := line + "\n" + t, FirstBreak(line);
    assert forall k :: 0 <= k < n ==> whole[k] == line[k];
    assert n < |line| ==> whole[n] == line[n];
    BreakIs(whole, n);
  }

  lemma {:induction false} SplitPieces(line: string, t: string)
    requires NoReturn(line)
    ensures SplitLines(line + "\n" + t) == Pieces(line) + SplitLines(t)
    decreases |line|
  {
    hide SplitLines, FirstBreak, Pieces, IsBreak;
    var whole, n := line + "\n" + t, FirstBreak(line);
    WrittenBreak(line, t);
    PiecesAt(line);
    assert whole[..n] == line[..n];
    if n == |line| {
      assert whole[n] == '\n' && whole[n + 1..] == t && whole[..n] == line;
      SplitAt(whole, n);
    } else {
      assert whole[n] == line[n] && line[n] in line;
      assert whole[n + 1..] == line[n + 1..] + "\n" + t;
      SplitAt(whole, n);
      SplitPieces(line[n + 1..], t);
    }
  }

  /** Lines written out one after the other are split into their pieces, whatever text follows. */
  lemma {:induction false} SplitAll(lines: seq<string>, t: string)
    requires forall l :: l in lines ==> NoReturn(l)
    ensures SplitLines(Unlines(lines) + t) == AllPieces(lines) + SplitLines(t)
  {
    hide SplitLines, Pieces;
    if lines == [] {
      assert Unlines(lines) + t == t;
    } else {
      var front, last := lines[..|lines| - 1], lines[|lines| - 1];
      assert last in lines && forall l :: l in front ==> l in lines;
      SplitAll(front, last + "\n" + t);
      SplitPieces(last, t);
      assert Unlines(lines) + t == Unlines(front) + (last + "\n" + t);
    }
  }

  lemma {:induction false} PiecesPlus(x: seq<string>, y: seq<string>)
    ensures AllPieces(x + y) == AllPieces(x) + AllPieces(y)
  {
    hide Pieces;
    if y == [] {
      assert x + y == x;
    } else {
      assert (x + y)[..|x + y| - 1] == x + y[..|y| - 1];
      PiecesPlus(x, y[..|y| - 1]);
    }
  }

  lemma {:induction false} SplitIsOneLine(t: string)
    ensures AllOneLine(SplitLines(t))
    decreases |t|
  {
    if t != "" {
      var n := FirstBreak(t);
      if n < |t| {
        SplitIsOneLine(t[if t[n] == '\r' && n + 1 < |t| && t[n + 1] == '\n' then n + 2 else n + 1..]);
      }
    }
  }

  // ---- what the parser sees of the lines ----

  /** The lines that are not blank, without white space behind them. */
  function Norm(lines: seq<string>): seq<string> {
    if lines == [] then []
    else Norm(lines[..|lines| - 1]) + if Blank(lines[|lines| - 1]) then [] else [RStrip(lines[|lines| - 1])]
  }

  lemma {:induction false} NormPlus(x: seq<string>, y: seq<string>)
    ensures Norm(x + y) == Norm(x) + Norm(y)
  {
    hide Blank, RStrip;
    if y == [] {
      assert x + y == x;
    } else {
      assert (x + y)[..|x + y| - 1] == x + y[..|y| - 1];
      NormPlus(x, y[..|y| - 1]);
    }
  }

  lemma NormOf(line: string)
    ensures Norm([line]) == if Blank(line) then [] else [RStrip(line)]
  {
    assert [line][..0] == [];
  }

  lemma {:induction false} ReadNorm(b: Body, lines: seq<string>)
    ensures ReadBody(b, Norm(lines)) == ReadBody(b, lines)
  {
    hide Step, Blank, RStrip;
    if lines != [] {
      var front, last := lines[..|lines| - 1], lines[|lines| - 1];
      ReadNorm(b, front);
      if Blank(last) {
        assert Norm(lines) == Norm(front);
        BlankStep(ReadBody(b, front), last);
      } else {
        ReadMore(b, Norm(front), [RStrip(last)]);
        ReadOne(ReadBody(b, front), RStrip(last));
        StepStrip(ReadBody(b, front), last);
      }
    }
  }

  lemma {:induction false} NormBlanks(lines: seq<string>)
    requires forall l :: l in lines ==> Blank(l)
    ensures Norm(lines) == []
  {
    hide Blank;
    if lines != [] {
      NormBlanks(lines[..|lines| - 1]);
    }
  }

  lemma {:induction false} BlankPieces(line: string)
    requires Blank(line)
    ensures Norm(Pieces(line)) == []
    ensures forall x :: x in Pieces(line) ==> Blank(x)
    decreases |line|
  {
    var n := FirstBreak(line);
    if n < |line| {
      BlankPieces(line[n + 1..]);
    }
    NormBlanks(Pieces(line));
  }

  lemma NoBreakIn(s: string)
    requires OneLine(s)
    ensures forall i :: 0 <= i < |s| ==> !IsBreak(s[i])
  {
    assert forall i :: 0 <= i < |s| ==> s[i] in s;
  }

  /** Text and white space behind it: the break, if there is one, is in the white space. */
  lemma BreakBehind(line: string)
    requires !Blank(line) && OneLine(RStrip(line))
    ensures |RStrip(line)| <= FirstBreak(line)
    ensures FirstBreak(line) < |line| ==> Blank(line[FirstBreak(line) + 1..])
    ensures !Blank(line[..FirstBreak(line)]) && RStrip(line[..FirstBreak(line)]) == RStrip(line)
  {
    var n, r := FirstBreak(line), RStrip(line);
    NoBreakIn(r);
    BehindIsBlank(line);
    assert line[..n] == r + line[|r|..n];
    RStripSpace(r, line[|r|..n]);
    RStripTwice(line);
  }

  lemma {:induction false} BehindIsBlank(s: string)
    ensures Blank(s[|RStrip(s)|..])
  {
    if s != "" && PySpace(s[|s| - 1]) {
      BehindIsBlank(s[..|s| - 1]);
    }
  }

  lemma RStripTwice(s: string)
    ensures RStrip(RStrip(s)) == RStrip(s)
  {
  }

  /** A line whose text, white space behind it aside, has no break in it. */
  lemma NormOne(line: string)
    requires !Blank(line) && OneLine(RStrip(line))
    ensures Norm(Pieces(line)) == [RStrip(line)]
  {
    hide Blank, RStrip;
    var n := FirstBreak(line);
    BreakBehind(line);
    NormOf(line[..n]);
    if n < |line| {
      BlankPieces(line[n + 1..]);
      NormPlus([line[..n]], Pieces(line[n + 1..]));
    } else {
      assert line[..n] == line;
    }
  }

  /** A line that is blank or has its text in one piece. */
  predicate InOnePiece(line: string) {
    Blank(line) || OneLine(RStrip(line))
  }

  lemma {:induction false} NormLines(lines: seq<string>)
    requires forall l :: l in lines ==> InOnePiece(l)
    ensures Norm(AllPieces(lines)) == Norm(lines)
  {
    hide Blank, RStrip, Pieces;
    if lines != [] {
      var front, last := lines[..|lines| - 1], lines[|lines| - 1];
      assert last in lines && InOnePiece(last);
      NormLines(front);
      NormPlus(AllPieces(front), Pieces(last));
      if Blank(last) {
        BlankPieces(last);
      } else {
        NormOne(last);
      }
    }
  }

  /** No piece of a line that is no heading is one. */
  lemma PlainPieces(line: string)
    requires InOnePiece(line) && !IsHeading(line)
    ensures forall x :: x in Pieces(line) ==> !IsHeading(x)
  {
    hide RStrip;
    if Blank(line) {
      BlankPieces(line);
      BlanksAreNoHeadings(Pieces(line));
    } else {
      BreakBehind(line);
      var n := FirstBreak(line);
      if n < |line| {
        BlankPieces(line[n + 1..]);
        BlanksAreNoHeadings(Pieces(line[n + 1..]));
      }
    }
  }

  lemma BlanksAreNoHeadings(lines: seq<string>)
    requires forall l :: l in lines ==> Blank(l)
    ensures forall l :: l in lines ==> !IsHeading(l)
  {
    forall l | l in lines && l != ""
      ensures l[0] != '#'
    {
      assert l[0] in l && PySpace(l[0]);
    }
  }

  lemma {:induction false} AllPlain(lines: seq<string>)
    requires forall l :: l in lines ==> InOnePiece(l) && !IsHeading(l)
    ensures forall x :: x in AllPieces(lines) ==> !IsHeading(x)
  {
    hide InOnePiece, IsHeading, Pieces;
    if lines != [] {
      AllPlain(lines[..|lines| - 1]);
      PlainPieces(lines[|lines| - 1]);
    }
  }

  // ---- the summary, which may have breaks ahead of its text too ----

  /** The first piece that is not blank. */
  function Piece(t: string): string {
    var n := FirstBreak(t);
    if n < |t| && Blank(t[..n]) then Piece(t[n + 1..]) else t[..n]
  }

  lemma {:induction false} LStripIs(s: string) returns (k: nat)
    ensures k <= |s| && LStrip(s) == s[k..] && (k < |s| ==> !PySpace(s[k]))
    ensures forall i :: 0 <= i < k ==> PySpace(s[i])
  {
    if s != "" && PySpace(s[0]) {
      k := LStripIs(s[1..]);
      k := k + 1;
    } else {
      k := 0;
    }
  }

  lemma {:induction false} LStripBlank(a: string, b: string)
    requires Blank(a)
    ensures LStrip(a + b) == LStrip(b)
  {
    if a == "" {
      assert a + b == b;
    } else {
      assert a[0] in a && (a + b)[1..] == a[1..] + b;
      LStripBlank(a[1..], b);
    }
  }

  /** Blank text ahead of the rest is stripped. */
  lemma StripBehind(a: string, b: string)
    requires Blank(a) && !Blank(b)
    ensures Strip(a + b) == Strip(b)
  {
    RStripKeeps(a, b);
    LStripBlank(a, RStrip(b));
  }

  lemma SolidIsAhead(t: string, i: nat)
    requires i < |t| && !PySpace(t[i])
    ensures i < |RStrip(t)|
  {
    BehindIsBlank(t);
    var behind := t[|RStrip(t)|..];
    assert forall j :: 0 <= j < |behind| ==> behind[j] == t[|RStrip(t)| + j] && behind[j] in behind;
  }

  /** When the first piece has text in it and the text no break, all of the text is in it. */
  lemma TextAhead(t: string)
    requires !Blank(t[..FirstBreak(t)]) && OneLine(Strip(t))
    ensures !Blank(t) && OneLine(RStrip(t))
  {
    var n, r := FirstBreak(t), RStrip(t);
    var c :| c in t[..n] && !PySpace(c);
    var i :| 0 <= i < n && t[i] == c;
    assert t[i] in t;
    SolidIsAhead(t, i);
    var k := LStripIs(r);
    assert k <= i;
    forall j | 0 <= j < |r|
      ensures !IsBreak(r[j])
    {
      if j >= k {
        assert r[k..][j - k] == r[j];
        assert r[j] in Strip(t);
      }
    }
  }

  /** The first piece has text in it: it has all of it. */
  lemma PieceFirst(t: string)
    requires !Blank(t[..FirstBreak(t)]) && OneLine(Strip(t))
    ensures var x := t[..FirstBreak(t)];
            Norm(Pieces(t)) == [RStrip(x)] && RStrip(x) == RStrip(t) && OneLine(x) && x in Pieces(t)
    ensures forall y :: y in Pieces(t) ==> Blank(y) || y == t[..FirstBreak(t)]
  {
    hide Blank, RStrip, LStrip, Norm;
    var n := FirstBreak(t);
    TextAhead(t);
    BreakBehind(t);
    NormOne(t);
    assert n == |t| ==> t[..n] == t;
    if n < |t| {
      BlankPieces(t[n + 1..]);
    }
  }

  /** The first piece is blank: the rest has the text. */
  lemma PieceLater(t: string)
    requires FirstBreak(t) < |t| && Blank(t[..FirstBreak(t)]) && !Blank(t)
    ensures var rest := t[FirstBreak(t) + 1..];
            !Blank(rest) && Strip(rest) == Strip(t) && Norm(Pieces(t)) == Norm(Pieces(rest))
  {
    hide Blank, RStrip, LStrip, Norm;
    var n := FirstBreak(t);
    BreakIsBlank(t, n);
    assert t == t[..n + 1] + t[n + 1..];
    StripBehind(t[..n + 1], t[n + 1..]);
    NormOf(t[..n]);
    NormPlus([t[..n]], Pieces(t[n + 1..]));
  }

  /** A text in one piece is normalised to that piece, which has the same text. */
  lemma {:induction false} PieceIs(t: string)
    requires !Blank(t) && OneLine(Strip(t))
    ensures Norm(Pieces(t)) == [RStrip(Piece(t))] && !Blank(Piece(t)) && Strip(Piece(t)) == Strip(t)
    ensures OneLine(Piece(t)) && Piece(t) in Pieces(t)
    ensures forall x :: x in Pieces(t) ==> Blank(x) || x == Piece(t)
    decreases |t|
  {
    hide Blank, RStrip, LStrip, OneLine, Norm, FirstBreak;
    var n := FirstBreak(t);
    if n < |t| && Blank(t[..n]) {
      PieceLater(t);
      PieceIs(t[n + 1..]);
    } else {
      assert n == |t| ==> t[..n] == t;
      PieceFirst(t);
    }
  }

  lemma BreakIsBlank(t: string, n: nat)
    requires n < |t| && IsBreak(t[n]) && Blank(t[..n]) && !Blank(t)
    ensures Blank(t[..n + 1]) && !Blank(t[n + 1..])
  {
    assert t[..n + 1] == t[..n] + [t[n]] && t == t[..n + 1] + t[n + 1..];
  }

  lemma {:induction false} PieceAt(t: string)
    ensures var n := FirstBreak(t);
            Piece(t) == if n < |t| && Blank(t[..n]) then Piece(t[n + 1..]) else t[..n]
  {
    hide FirstBreak, IsBreak, Blank;
  }

  lemma StrippedFirst(t: string)
    requires !Blank(t[..FirstBreak(t)]) && OneLine(Strip(t))
    ensures Piece(RStrip(t)) == RStrip(t) == RStrip(t[..FirstBreak(t)])
  {
    hide Blank, RStrip, LStrip, FirstBreak, Piece, IsBreak;
    TextAhead(t);
    BreakBehind(t);
    var r := RStrip(t);
    NoBreakIn(r);
    BreakIs(r, |r|);
    PieceAt(r);
    assert r[..|r|] == r;
  }

  /** Texts that agree up to the first break of one have it in common. */
  lemma SameBreak(t: string, r: string, n: nat)
    requires FirstBreak(t) == n < |t| && n < |r| && t[..n + 1] <= r
    ensures FirstBreak(r) == n
  {
    hide FirstBreak, IsBreak;
    forall k | 0 <= k <= n
      ensures r[k] == t[k]
    {
      assert r[k] == t[..n + 1][k];
    }
    BreakIs(r, n);
  }

  lemma StrippedLater(t: string)
    requires FirstBreak(t) < |t| && Blank(t[..FirstBreak(t)]) && !Blank(t)
    ensures Piece(RStrip(t)) == Piece(RStrip(t[FirstBreak(t) + 1..]))
  {
    hide Blank, RStrip, LStrip, Piece, IsBreak, FirstBreak;
    var n := FirstBreak(t);
    BreakIsBlank(t, n);
    var front, rest := t[..n + 1], t[n + 1..];
    assert t == front + rest;
    RStripKeeps(front, rest);
    var r := front + RStrip(rest);
    SameBreak(t, r, n);
    PieceAt(r);
    assert r[..n] == t[..n] && r[n + 1..] == RStrip(rest);
  }

  /** Cutting off white space behind a text does the same to its piece. */
  lemma {:induction false} PieceOfStripped(t: string)
    requires !Blank(t) && OneLine(Strip(t))
    ensures Piece(RStrip(t)) == RStrip(Piece(t)) && Strip(RStrip(t)) == Strip(t) && !Blank(RStrip(t))
    decreases |t|
  {
    hide Blank, RStrip, LStrip, OneLine, FirstBreak, Piece;
    var n := FirstBreak(t);
    RStripTwice(t);
    SomeIsLeft(t);
    PieceAt(t);
    if n < |t| && Blank(t[..n]) {
      PieceLater(t);
      StrippedLater(t);
      PieceOfStripped(t[n + 1..]);
    } else {
      assert n == |t| ==> t[..n] == t;
      StrippedFirst(t);
    }
  }

  lemma SomeIsLeft(t: string)
    ensures Blank(RStrip(t)) <==> Blank(t)
  {
    RStripTwice(t);
  }

  /** Nothing but blank lines comes before the piece, if that is a heading. */
  lemma {:induction false} UntilPiece(t: string, more: seq<string>)
    requires IsHeading(Piece(t))
    ensures var all := Pieces(t) + more;
            && UntilHeading(all) < |all| && all[UntilHeading(all)] == Piece(t)
            && UntilHeading(all) < |Pieces(t)|
            && forall i :: 0 <= i < UntilHeading(all) ==> Blank(all[i])
    decreases |t|
  {
    hide FirstBreak, Pieces, Piece, IsHeading, Blank;
    var n, all := FirstBreak(t), Pieces(t) + more;
    PiecesAt(t);
    PieceAt(t);
    if n < |t| && Blank(t[..n]) {
      BlanksAreNoHeadings([t[..n]]);
      var rest := Pieces(t[n + 1..]) + more;
      assert all == [t[..n]] + rest && all[1..] == rest && t[..n] in [t[..n]];
      UntilPiece(t[n + 1..], more);
      forall i | 0 < i < UntilHeading(all)
        ensures Blank(all[i])
      {
        assert all[i] == rest[i - 1];
      }
    } else {
      assert n == |t| ==> t[..n] == t;
      assert all[0] == Piece(t);
    }
  }

  // ---- fields ----

  ghost predicate OneLineFields(b: Body) {
    && OneLine(b.headline) && AllOneLine(b.summary) && OneLine(b.collapsed)
    && AllOneLine(b.added) && AllOneLine(b.improved) && AllOneLine(b.fixed)
  }

  lemma PartIsOneLine(s: string, part: string)
    requires OneLine(s) && forall c :: c in part ==> c in s
    ensures OneLine(part)
  {
  }

  lemma FrontIsOneLine(s: string, front: string)
    requires OneLine(s) && front <= s
    ensures OneLine(front) && OneLine("")
  {
    assert forall c :: c in front ==> c in s;
  }

  lemma {:induction false} DropIs(s: string) returns (k: nat)
    ensures k <= |s| && DropBlanks(s) == s[k..] && forall i :: 0 <= i < k ==> s[i] == ' '
  {
    if s != "" && s[0] == ' ' {
      k := DropIs(s[1..]);
      k := k + 1;
    } else {
      k := 0;
    }
  }

  lemma BulletIsOneLine(line: string)
    requires OneLine(line) && BulletOf(line).Some?
    ensures OneLine(BulletOf(line).value)
  {
    hide IsBreak;
    var k := DropIs(line[1..]);
    PartIsOneLine(line, line[1..][k..]);
  }

  lemma LongerIsOneLine(item: string, line: string)
    requires OneLine(item) && OneLine(line)
    ensures OneLine(item + " " + LStrip(line)) && OneLine(LStrip(line))
  {
    var k := LStripIs(line);
    hide LStrip;
    PartIsOneLine(line, line[k..]);
  }

  lemma {:induction false} OneMore(items: seq<string>, item: string)
    requires AllOneLine(items) && OneLine(item)
    ensures AllOneLine(items + [item])
    ensures items != [] ==> AllOneLine(items[|items| - 1 := item])
  {
    hide OneLine;
  }

  lemma ItemsStayOneLine(b: Body, line: string)
    requires OneLineFields(b) && OneLine(line) && b.group.Some?
    ensures BulletOf(line).Some? ==> AllOneLine(b.Items(b.group.value) + [BulletOf(line).value])
    ensures var items := b.Items(b.group.value);
            items != [] ==> AllOneLine(items[|items| - 1 := items[|items| - 1] + " " + LStrip(line)])
  {
    hide OneLine, LStrip, BulletOf;
    var items := b.Items(b.group.value);
    if BulletOf(line).Some? {
      BulletIsOneLine(line);
      OneMore(items, BulletOf(line).value);
    }
    if items != [] {
      assert items[|items| - 1] in items;
      LongerIsOneLine(items[|items| - 1], line);
      OneMore(items, items[|items| - 1] + " " + LStrip(line));
    }
  }

  lemma MarksAreOneLine(line: string)
    requires OneLine(line)
    ensures HeadlineOf(line).Some? ==> OneLine(HeadlineOf(line).value)
    ensures CollapsedOf(line).Some? ==> OneLine(CollapsedOf(line).value)
  {
    hide OneLine;
    if |line| > 4 {
      PartIsOneLine(line, line[2..|line| - 2]);
    }
    if |line| > 2 {
      PartIsOneLine(line, line[1..|line| - 1]);
    }
  }

  /** Reading a line keeps the fields free of breaks. */
  lemma StepIsOneLine(b: Body, raw: string)
    requires OneLineFields(b) && OneLine(raw)
    ensures OneLineFields(Step(b, raw))
  {
    hide OneLine, AllOneLine, RStrip, LStrip, GroupOf, BulletOf, HeadlineOf, CollapsedOf;
    var line := RStrip(raw);
    FrontIsOneLine(raw, line);
    LongerIsOneLine("", line);
    MarksAreOneLine(line);
    if b.group.Some? {
      ItemsStayOneLine(b, line);
    }
    OneMore(b.summary, LStrip(line));
  }

  lemma {:induction false} FieldsAreOneLine(lines: seq<string>)
    requires AllOneLine(lines)
    ensures OneLineFields(ReadBody(EMPTY, lines))
  {
    hide Step, OneLine;
    if lines == [] {
      NothingIsOneLine();
    } else {
      FieldsAreOneLine(lines[..|lines| - 1]);
      StepIsOneLine(ReadBody(EMPTY, lines[..|lines| - 1]), lines[|lines| - 1]);
    }
  }

  lemma NothingIsOneLine()
    ensures OneLineFields(EMPTY)
  {
  }

  // ---- drafts ----

  ghost predicate AllInOnePiece(items: seq<string>) {
    forall i :: 0 <= i < |items| ==> OneLine(RStrip(items[i]))
  }

  /** No field has a break in it that the parser would not skip. */
  ghost predicate OneLines(d: Draft) {
    && OneLine(d.headline) && OneLine(Strip(d.summary))
    && AllInOnePiece(d.added) && AllInOnePiece(d.improved) && AllInOnePiece(d.fixed)
  }

  lemma ItemInOnePiece(item: string)
    requires OneLine(ItemText(item))
    ensures OneLine(RStrip(item))
  {
    var r := RStrip(item);
    var k := DropIs(r);
    forall i | 0 <= i < |r|
      ensures !IsBreak(r[i])
    {
      if i >= k {
        assert r[k..][i - k] == r[i];
        assert r[i] in ItemText(item);
      }
    }
  }

  lemma ItemsInOnePiece(items: seq<string>)
    requires AllOneLine(ItemTexts(items))
    ensures AllInOnePiece(items)
  {
    hide OneLine, ItemText, RStrip;
    forall i | 0 <= i < |items|
      ensures OneLine(RStrip(items[i]))
    {
      assert ItemTexts(items)[i] == ItemText(items[i]) && ItemTexts(items)[i] in ItemTexts(items);
      ItemInOnePiece(items[i]);
    }
  }

  /** A draft with a break inside a field is never read back. */
  lemma BrokenIsNotShown(d: Draft, lines: seq<string>)
    requires AllOneLine(lines) && Shows(ReadBody(EMPTY, lines), d)
    ensures OneLines(d)
  {
    hide OneLine, ReadBody, Strip, ItemTexts;
    FieldsAreOneLine(lines);
    var b := ReadBody(EMPTY, lines);
    ItemsInOnePiece(d.added);
    ItemsInOnePiece(d.improved);
    ItemsInOnePiece(d.fixed);
    assert b.summary[0] in b.summary;
  }
}
