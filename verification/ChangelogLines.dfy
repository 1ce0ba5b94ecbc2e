/** Lines whose text matters only for what kind of line it is. */
module ChangelogLines {

  /** A line, its number in the source (0 when there is none), and what it is; the title is that of a heading of either kind. */
  datatype Line<R> = Line(raw: R, number: nat, isRelease: bool, isHeading: bool, isItem: bool, isBlank: bool, title: R)

  /** How headings are written, and how titles order. */
  datatype Style<!R> = Style(none: R, mark: R -> R, order: R -> nat, unreleased: R, unreleasedHeading: R)

  function Empty<R>(style: Style<R>): Line<R> {
    Line(style.none, 0, false, false, false, true, style.none)
  }

  function HeadingLine<R>(style: Style<R>, title: R): Line<R> {
    Line(style.mark(title), 0, false, true, false, false, title)
  }

  function UnreleasedHeading<R>(style: Style<R>): Line<R> {
    Line(style.unreleasedHeading, 0, true, false, false, false, style.unreleased)
  }

  /** The lines without their numbers. */
  function Synthetic<R(==)>(ls: seq<Line<R>>): (t: seq<Line<R>>)
    ensures |t| == |ls| && forall i | 0 <= i < |ls| :: t[i] == ls[i].(number := 0)
  {
    seq(|ls|, i requires 0 <= i < |ls| => ls[i].(number := 0))
  }

  predicate AllBlank<R(==)>(ls: seq<Line<R>>) {
    forall i | 0 <= i < |ls| :: ls[i].isBlank
  }

  /** Neither end of the list is a blank line. */
  predicate TrimmedLines<R(==)>(ls: seq<Line<R>>) {
    ls != [] ==> !ls[0].isBlank && !ls[|ls| - 1].isBlank
  }

  function SkipBlanks<R(==)>(ls: seq<Line<R>>, i: nat): (k: nat)
    requires i <= |ls|
    ensures i <= k <= |ls|
    ensures forall j | i <= j < k :: ls[j].isBlank
    ensures k < |ls| ==> !ls[k].isBlank
    decreases |ls| - i
  {
    if i < |ls| && ls[i].isBlank then SkipBlanks(ls, i + 1) else i
  }

  function DropBlanks<R(==)>(ls: seq<Line<R>>, i: nat, k: nat): (e: nat)
    requires i <= k <= |ls|
    ensures i <= e <= k
    ensures forall j | e <= j < k :: ls[j].isBlank
    ensures e > i ==> !ls[e - 1].isBlank
  {
    if k > i && ls[k - 1].isBlank then DropBlanks(ls, i, k - 1) else k
  }

  function TrimLines<R(==)>(ls: seq<Line<R>>): (t: seq<Line<R>>)
    ensures TrimmedLines(t)
  {
    var i := SkipBlanks(ls, 0);
    ls[i..DropBlanks(ls, i, |ls|)]
  }

  /** The loop the fixer runs: two indices moving toward each other. */
  method TrimBlankLines<R(==)>(lines: seq<Line<R>>) returns (t: seq<Line<R>>)
    ensures t == TrimLines(lines)
  {
    var start, end := 0, |lines|;
    while start < end && lines[start].isBlank
      invariant 0 <= start <= end == |lines|
      invariant SkipBlanks(lines, start) == SkipBlanks(lines, 0)
    {
      start := start + 1;
    }
    while end > start && lines[end - 1].isBlank
      invariant start <= end <= |lines|
      invariant DropBlanks(lines, start, end) == DropBlanks(lines, start, |lines|)
    {
      end := end - 1;
    }
    t := lines[start..end];
  }

  /** Blank lines around trimmed lines are what trimming takes off, and all of it. */
  lemma TrimLinesUnique<R>(before: seq<Line<R>>, ls: seq<Line<R>>, after: seq<Line<R>>)
    requires AllBlank(before) && AllBlank(after) && TrimmedLines(ls)
    ensures TrimLines(before + ls + after) == ls
  {
    var t := before + ls + after;
    assert forall j | 0 <= j < |before| :: t[j] == before[j];
    assert forall j | 0 <= j < |after| :: t[|before| + |ls| + j] == after[j];
    if ls != [] {
      assert t[|before|] == ls[0];
      assert SkipBlanks(t, 0) == |before|;
      assert t[|before| + |ls| - 1] == ls[|ls| - 1];
      assert DropBlanks(t, |before|, |t|) == |before| + |ls|;
    }
  }

  lemma Regroup<T>(a: seq<T>, b: seq<T>, c: seq<T>)
    ensures a + b + c == a + (b + c)
  {
  }

  /** Trimming takes blank lines off the ends. */
  lemma TrimLinesParts<R>(ls: seq<Line<R>>) returns (before: seq<Line<R>>, after: seq<Line<R>>)
    ensures AllBlank(before) && AllBlank(after) && ls == before + (TrimLines(ls) + after)
  {
    var i := SkipBlanks(ls, 0);
    var e := DropBlanks(ls, i, |ls|);
    before, after := ls[..i], ls[e..];
  }

  lemma TrimLinesKeeps<R>(ls: seq<Line<R>>)
    ensures forall l | l in TrimLines(ls) :: l in ls
    ensures TrimLines(ls) == [] <==> AllBlank(ls)
    ensures TrimmedLines(ls) ==> TrimLines(ls) == ls
  {
    var i := SkipBlanks(ls, 0);
    var e := DropBlanks(ls, i, |ls|);
    if TrimLines(ls) == [] {
      assert forall j | 0 <= j < |ls| :: ls[j].isBlank;
    } else {
      assert !ls[i].isBlank;
    }
  }

  /** What is written of a list of lines: no numbers, no blank ends. */
  function Kept<R(==)>(ls: seq<Line<R>>): seq<Line<R>> {
    TrimLines(Synthetic(ls))
  }

  lemma KeptKeeps<R>(ls: seq<Line<R>>)
    ensures Kept(ls) == [] <==> AllBlank(ls)
    ensures forall l | l in Kept(ls) :: l in Synthetic(ls)
  {
    TrimLinesKeeps(Synthetic(ls));
    assert forall i | 0 <= i < |ls| :: Synthetic(ls)[i].isBlank == ls[i].isBlank;
  }
}
