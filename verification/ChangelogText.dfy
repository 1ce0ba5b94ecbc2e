/** Lines of a changelog: blanks, headings, list items, and how text is split into lines and joined. */
module ChangelogText {
  import opened ChangelogLines

  /** The white space and line terminators that trimming and \s recognise. */
  predicate IsSpace(c: char) {
    || c == '\t' || c == '\n' || c == '\U{000B}' || c == '\U{000C}' || c == '\r' || c == ' '
    || c == '\U{00A0}' || c == '\U{1680}' || '\U{2000}' <= c <= '\U{200A}'
    || c == '\U{2028}' || c == '\U{2029}' || c == '\U{202F}' || c == '\U{205F}' || c == '\U{3000}' || c == '\U{FEFF}'
  }

  predicate IsBlank(s: string) {
    forall i | 0 <= i < |s| :: IsSpace(s[i])
  }

  /** Position of the first character from i on that is not white space. */
  function SkipSpaces(s: string, i: nat): (k: nat)
    requires i <= |s|
    ensures i <= k <= |s|
    ensures forall j | i <= j < k :: IsSpace(s[j])
    ensures k < |s| ==> !IsSpace(s[k])
    decreases |s| - i
  {
    if i < |s| && IsSpace(s[i]) then SkipSpaces(s, i + 1) else i
  }

  /** Position after the last character before k that is not white space. */
  function DropSpaces(s: string, i: nat, k: nat): (e: nat)
    requires i <= k <= |s|
    ensures i <= e <= k
    ensures forall j | e <= j < k :: IsSpace(s[j])
    ensures e > i ==> !IsSpace(s[e - 1])
  {
    if k > i && IsSpace(s[k - 1]) then DropSpaces(s, i, k - 1) else k
  }

  function Trim(s: string): string {
    var i := SkipSpaces(s, 0);
    s[i..DropSpaces(s, i, |s|)]
  }

  /** Neither end is white space. */
  predicate Trimmed(s: string) {
    s != [] ==> !IsSpace(s[0]) && !IsSpace(s[|s| - 1])
  }

  /** White space around a trimmed string is what trimming takes off, and all of it. */
  lemma TrimUnique(before: string, s: string, after: string)
    requires IsBlank(before) && IsBlank(after) && Trimmed(s) && s != []
    ensures Trim(before + s + after) == s
  {
    var t := before + s + after;
    var i := SkipSpaces(t, 0);
    assert t[|before|] == s[0];
    assert forall j | 0 <= j < |before| :: t[j] == before[j];
    assert i == |before|;
    var e := DropSpaces(t, i, |t|);
    assert t[|before| + |s| - 1] == s[|s| - 1];
    assert forall j | 0 <= j < |after| :: t[|before| + |s| + j] == after[j];
    assert e == |before| + |s|;
  }

  lemma TrimIsTrimmed(s: string)
    ensures Trimmed(Trim(s))
    ensures IsBlank(s) <==> Trim(s) == []
    ensures forall c | c in Trim(s) :: c in s
  {
    var i := SkipSpaces(s, 0);
    var e := DropSpaces(s, i, |s|);
    if Trim(s) == [] {
      assert forall j | 0 <= j < |s| :: IsSpace(s[j]);
    } else {
      assert !IsSpace(s[i]);
    }
  }

  /** No line separator of either kind. */
  predicate OneLine(s: string) {
    '\n' !in s && '\r' !in s
  }

  /** First position from i on holding a closing bracket, or the end. */
  function CloseBracket(s: string, i: nat): (k: nat)
    requires i <= |s|
    ensures i <= k <= |s|
    ensures forall j | i <= j < k :: s[j] != ']'
    ensures k < |s| ==> s[k] == ']'
    decreases |s| - i
  {
    if i < |s| && s[i] != ']' then CloseBracket(s, i + 1) else i
  }

  /** "## [" and a non-empty title up to the first closing bracket. */
  predicate IsReleaseHeading(line: string) {
    |line| > 4 && line[0] == line[1] == '#' && line[2] == ' ' && line[3] == '[' && 4 < CloseBracket(line, 4) < |line|
  }

  function ReleaseTitle(heading: string): string
    requires IsReleaseHeading(heading)
  {
    heading[4..CloseBracket(heading, 4)]
  }

  /** "###", white space, and something that is not. */
  predicate IsSubsectionHeading(line: string) {
    |line| > 3 && line[0] == line[1] == line[2] == '#' && IsSpace(line[3]) && !IsBlank(line[3..])
  }

  function SubsectionTitle(heading: string): string
    requires IsSubsectionHeading(heading)
  {
    Trim(heading[3..])
  }

  predicate IsListItem(line: string) {
    var k := SkipSpaces(line, 0);
    k + 1 < |line| && line[k] == '-' && line[k + 1] == ' '
  }

  /** A title a heading can carry. */
  predicate IsTitle(title: string) {
    title != [] && Trimmed(title) && OneLine(title)
  }

  function Lex(line: string): Line<string> {
    var release, heading := IsReleaseHeading(line), IsSubsectionHeading(line);
    Line(line, 0, release, heading, IsListItem(line), IsBlank(line),
         if release then ReleaseTitle(line) else if heading then SubsectionTitle(line) else "")
  }

  /** The line really is what it is said to be. */
  predicate Lexed(t: Line<string>) {
    OneLine(t.raw) && t == Lex(t.raw)
  }

  function TitleOrder(title: string): nat {
    if title == "Breaking Changes" then 0
    else if title == "Added" then 1
    else if title == "Changed" then 2
    else if title == "Fixed" then 3
    else if title == "Removed" then 4
    else 5
  }

  const UNRELEASED := "Unreleased"

  const CHANGELOG := Style("", (title: string) => "### " + title, TitleOrder, UNRELEASED, "## [" + UNRELEASED + "]")

  /** No line is two of these at once. */
  lemma KindsExclude(line: string)
    ensures
      var t := Lex(line);
      && !(t.isRelease && t.isHeading) && !(t.isRelease && t.isItem) && !(t.isHeading && t.isItem)
      && (t.isBlank ==> !t.isRelease && !t.isHeading && !t.isItem)
    ensures Lexed(Empty(CHANGELOG))
  {
    if IsReleaseHeading(line) || IsSubsectionHeading(line) {
      assert SkipSpaces(line, 0) == 0;
    }
    if IsListItem(line) {
      assert !IsSpace(line[SkipSpaces(line, 0)]);
    }
  }

  /** The heading written for a title reads back as that title. */
  lemma HeadingReadsBack(title: string)
    requires IsTitle(title)
    ensures Lexed(HeadingLine(CHANGELOG, title))
  {
    var h := "### " + title;
    assert h[3..] == " " + title + "";
    assert h[4] == title[0];
    assert !IsBlank(h[3..]) by { assert h[3..][1] == title[0]; }
    TrimUnique(" ", title, "");
    assert SkipSpaces(h, 0) == 0;
  }

  lemma ParsedTitleIsTitle(t: Line<string>)
    requires Lexed(t) && t.isHeading
    ensures IsTitle(t.title)
  {
    TrimIsTrimmed(t.raw[3..]);
  }

  /** The line list of a text: one more line than it has separators. */
  function Split(s: string): (ls: seq<string>)
    ensures ls != []
    ensures forall i | 0 <= i < |ls| :: '\n' !in ls[i]
    ensures '\r' !in s ==> forall i | 0 <= i < |ls| :: '\r' !in ls[i]
  {
    if s == [] then [""]
    else
      var rest := Split(s[1..]);
      if s[0] == '\n' then [""] + rest else [[s[0]] + rest[0]] + rest[1..]
  }

  function Join(ls: seq<string>): string {
    if ls == [] then "" else if |ls| == 1 then ls[0] else ls[0] + "\n" + Join(ls[1..])
  }

  lemma {:induction false} SplitFirst(line: string, rest: string)
    requires '\n' !in line
    ensures Split(line + "\n" + rest) == [line] + Split(rest)
    ensures Split(line) == [line]
  {
    var s := line + "\n" + rest;
    if line == [] {
      assert s == "\n" + rest;
      assert s[1..] == rest;
    } else {
      SplitFirst(line[1..], rest);
      assert s[1..] == line[1..] + "\n" + rest;
      assert [line[0]] + line[1..] == line;
    }
  }

  lemma {:induction false} SplitJoin(ls: seq<string>)
    requires ls != [] && forall i | 0 <= i < |ls| :: '\n' !in ls[i]
    ensures Split(Join(ls)) == ls
  {
    if |ls| == 1 {
      SplitFirst(ls[0], "");
    } else {
      SplitFirst(ls[0], Join(ls[1..]));
      SplitJoin(ls[1..]);
    }
  }

  lemma {:induction false} JoinHasNoReturn(ls: seq<string>)
    requires forall i | 0 <= i < |ls| :: '\r' !in ls[i]
    ensures '\r' !in Join(ls)
  {
    if |ls| > 1 {
      JoinHasNoReturn(ls[1..]);
    }
  }

  /** Carriage returns, alone or before a newline, become newlines. */
  function Normalize(s: string): (t: string)
    ensures '\r' !in t
  {
    if s == [] then ""
    else if s[0] == '\r' then "\n" + Normalize(if |s| > 1 && s[1] == '\n' then s[2..] else s[1..])
    else [s[0]] + Normalize(s[1..])
  }

  lemma {:induction false} NothingToNormalize(s: string)
    requires '\r' !in s
    ensures Normalize(s) == s
  {
    if s != [] {
      NothingToNormalize(s[1..]);
    }
  }

  function ContentLines(content: string): (ls: seq<string>)
    ensures ls != [] && forall i | 0 <= i < |ls| :: OneLine(ls[i])
  {
    var t := Normalize(content);
    if t != [] && t[|t| - 1] == '\n' then Split(t[..|t| - 1]) else Split(t)
  }

  function LexLines(content: string): (ts: seq<Line<string>>)
    ensures ts != [] && forall i | 0 <= i < |ts| :: Lexed(ts[i])
  {
    var ls := ContentLines(content);
    seq(|ls|, i requires 0 <= i < |ls| => Lex(ls[i]))
  }

  function RawLines(ts: seq<Line<string>>): (ls: seq<string>)
    ensures |ls| == |ts| && forall i | 0 <= i < |ts| :: ls[i] == ts[i].raw
  {
    seq(|ts|, i requires 0 <= i < |ts| => ts[i].raw)
  }

  /** The text written for a list of lines reads back as that list. */
  lemma WrittenLinesReadBack(ts: seq<Line<string>>)
    requires ts != [] && forall i | 0 <= i < |ts| :: Lexed(ts[i])
    ensures LexLines(Join(RawLines(ts)) + "\n") == ts
  {
    var ls := RawLines(ts);
    assert forall i | 0 <= i < |ls| :: OneLine(ls[i]) by { assert forall i | 0 <= i < |ls| :: Lexed(ts[i]); }
    var s := Join(ls) + "\n";
    JoinHasNoReturn(ls);
    NothingToNormalize(s);
    assert s[..|s| - 1] == Join(ls);
    SplitJoin(ls);
    assert ContentLines(s) == ls;
    forall i | 0 <= i < |ts|
      ensures Lex(ls[i]) == ts[i]
    {
      assert Lexed(ts[i]);
    }
  }
}
