/** Lines and white space as tools/changelog.py and installer/changelog_render.go see them. */
module NotesText {

  /** What Python's str.strip removes. */
  predicate PySpace(c: char) {
    || '\U{9}' <= c <= '\U{d}' || '\U{1c}' <= c <= '\U{20}' || c == '\U{85}' || c == '\U{a0}' || c == '\U{1680}'
    || '\U{2000}' <= c <= '\U{200a}' || c == '\U{2028}' || c == '\U{2029}' || c == '\U{202f}' || c == '\U{205f}'
    || c == '\U{3000}'
  }

  /** What Go's strings.TrimSpace removes: the same without the four information separators. */
  predicate GoSpace(c: char) {
    PySpace(c) && !('\U{1c}' <= c <= '\U{1f}')
  }

  /** Where Python's str.splitlines ends a line. */
  predicate IsBreak(c: char) {
    || '\U{a}' <= c <= '\U{d}' || '\U{1c}' <= c <= '\U{1e}' || c == '\U{85}' || c == '\U{2028}' || c == '\U{2029}'
  }

  predicate OneLine(s: string) {
    forall c :: c in s ==> !IsBreak(c)
  }

  predicate Blank(s: string) {
    forall c :: c in s ==> PySpace(c)
  }

  function RStrip(s: string): (r: string)
    ensures r <= s && (r == "" <==> Blank(s)) && (r != "" ==> !PySpace(r[|r| - 1]))
  {
    if s == "" then ""
    else if PySpace(s[|s| - 1]) then
      var r := RStrip(s[..|s| - 1]);
      assert s == s[..|s| - 1] + [s[|s| - 1]];
      r
    else s
  }

  function LStrip(s: string): string {
    if s == "" then "" else if PySpace(s[0]) then LStrip(s[1..]) else s
  }

  function Strip(s: string): string {
    LStrip(RStrip(s))
  }

  /** What the bullet pattern skips: blanks only. */
  function DropBlanks(s: string): string {
    if s == "" then "" else if s[0] == ' ' then DropBlanks(s[1..]) else s
  }

  function GoTrimRight(s: string): (r: string)
    ensures r <= s && (r != "" ==> !GoSpace(r[|r| - 1]))
  {
    if s == "" then "" else if GoSpace(s[|s| - 1]) then GoTrimRight(s[..|s| - 1]) else s
  }

  function GoTrimLeft(s: string): string {
    if s == "" then "" else if GoSpace(s[0]) then GoTrimLeft(s[1..]) else s
  }

  function GoTrim(s: string): string {
    GoTrimLeft(GoTrimRight(s))
  }

  function FirstBreak(t: string): (n: nat)
    ensures n <= |t| && (n < |t| ==> IsBreak(t[n]))
    ensures forall k :: 0 <= k < n ==> !IsBreak(t[k])
  {
    if t == "" || IsBreak(t[0]) then 0
    else
      var n := FirstBreak(t[1..]);
      assert t[..n + 1] == [t[0]] + t[1..][..n];
      n + 1
  }

  /** str.splitlines: a carriage return and a line feed together end one line, and the end of the text ends one too. */
  function SplitLines(t: string): seq<string> {
    if t == "" then []
    else
      var n := FirstBreak(t);
      if n == |t| then [t]
      else
        var next := if t[n] == '\r' && n + 1 < |t| && t[n + 1] == '\n' then n + 2 else n + 1;
        [t[..n]] + SplitLines(t[next..])
  }

  /** "\n".join(lines). */
  function Join(lines: seq<string>): string {
    if lines == [] then ""
    else if |lines| == 1 then lines[0]
    else Join(lines[..|lines| - 1]) + "\n" + lines[|lines| - 1]
  }

  function Unlines(lines: seq<string>): string {
    if lines == [] then "" else Unlines(lines[..|lines| - 1]) + lines[|lines| - 1] + "\n"
  }

  predicate AllOneLine(lines: seq<string>) {
    forall l :: l in lines ==> OneLine(l)
  }

  /** The lines of a text whose trailing white space has been cut off. */
  function Tight(lines: seq<string>): seq<string> {
    if lines == [] then []
    else if Blank(lines[|lines| - 1]) then Tight(lines[..|lines| - 1])
    else lines[..|lines| - 1] + [RStrip(lines[|lines| - 1])]
  }

  lemma {:induction false} RStripSpace(a: string, b: string)
    requires Blank(b)
    ensures RStrip(a + b) == RStrip(a)
  {
    if b == "" {
      assert a + b == a;
    } else {
      var front := b[..|b| - 1];
      assert b[|b| - 1] in b && (a + b)[..|a + b| - 1] == a + front;
      assert Blank(front);
      RStripSpace(a, front);
    }
  }

  lemma {:induction false} RStripKeeps(a: string, b: string)
    requires !Blank(b)
    ensures RStrip(a + b) == a + RStrip(b)
  {
    var front := b[..|b| - 1];
    assert (a + b)[..|a + b| - 1] == a + front && b == front + [b[|b| - 1]];
    if PySpace(b[|b| - 1]) {
      RStripKeeps(a, front);
    }
  }

  /** Cutting off trailing white space drops blank lines at the end and trims the last other one. */
  lemma {:induction false} TightText(lines: seq<string>)
    requires exists l :: l in lines && !Blank(l)
    ensures RStrip(Join(lines)) + "\n" == Unlines(Tight(lines))
  {
    hide PySpace, RStrip;
    var front, last := lines[..|lines| - 1], lines[|lines| - 1];
    assert forall l :: l in lines <==> l in front || l == last;
    if Blank(last) {
      TightText(front);
      NewlineIsSpace(last);
      RStripSpace(Join(front), "\n" + last);
      assert Join(lines) == Join(front) + ("\n" + last);
    } else {
      JoinIsUnlines(front);
      RStripKeeps(Unlines(front), last);
      assert Join(lines) == Unlines(front) + last;
      TightEnd(front, RStrip(last));
    }
  }

  lemma NewlineIsSpace(s: string)
    requires Blank(s)
    ensures Blank("\n" + s)
  {
  }

  lemma TightEnd(front: seq<string>, last: string)
    ensures Unlines(front + [last]) == Unlines(front) + last + "\n"
  {
    assert (front + [last])[..|front|] == front;
  }

  lemma {:induction false} JoinIsUnlines(lines: seq<string>)
    ensures lines != [] ==> Join(lines) + "\n" == Unlines(lines)
  {
    if |lines| > 1 {
      JoinIsUnlines(lines[..|lines| - 1]);
    } else if |lines| == 1 {
      assert Unlines(lines[..0]) == "";
    }
  }
}
