/** How far a text reads as complete edits. */
module EditBoundary {
  datatype Header = NoHeader | NewHeader | LegacyHeader | CodexHeader

  /** A line and everything it could be in either grammar. */
  datatype Line<T> = Line(
    isBlank: bool, isEnvelope: bool, header: Header, target: T,
    blocksNew: bool, blocksLegacy: bool,
    isInsert: bool, isRange: bool, takesRows: bool, inlined: nat, deleted: nat,
    legacyInsert: bool, legacyReplace: bool, legacyDeleted: nat,
    stripsToDashes: bool, isMarker: bool, diff: DiffLine<T>)

  /** A line of the older diff grammar; the first that holds of these decides. */
  datatype DiffLine<T> = DiffLine(
    isDashes: bool, hasTarget: bool, target: T, isFileMark: bool, isHunkMark: bool,
    isDelete: bool, isReplace: bool, isEquals: bool, tail: nat, isPlus: bool, isContext: bool, isMinus: bool)

  datatype EditSection<T> = EditSection(target: T, payload: nat, deleted: nat, ops: nat)

  /** What has been read: all of it, and how much of it stands as complete edits. A failed scan is an exception raised, and has no boundary. */
  datatype Scan<T> = Scan(
    sections: seq<EditSection<T>>, format: Header,
    needs: bool, saw: bool, allowed: bool, seen: bool,
    parsed: nat, read: nat, stopped: bool, failed: bool)

  function Start<T>(): Scan<T> {
    Scan([], NoHeader, false, false, false, false, 0, 0, false, false)
  }

  predicate Pending<T>(s: Scan<T>) {
    s.needs && !s.saw
  }

  /** Adds to the current section. */
  function Add<T>(sections: seq<EditSection<T>>, payload: nat, deleted: nat, ops: nat): (r: seq<EditSection<T>>)
    ensures |r| == |sections|
  {
    if sections == [] then []
    else
      var n := |sections| - 1;
      var last := sections[n];
      sections[n := EditSection(last.target, last.payload + payload, last.deleted + deleted, last.ops + ops)]
  }

  /** The line is taken, and all up to it stands. */
  function Take<T>(s: Scan<T>, payload: nat, deleted: nat, ops: nat, needs: bool, saw: bool, allowed: bool): Scan<T> {
    Scan(Add(s.sections, payload, deleted, ops), s.format, needs, saw, allowed, true, s.read + 1, s.read + 1, false, false)
  }

  function Stop<T>(s: Scan<T>): Scan<T> {
    s.(stopped := true)
  }

  function Fail<T>(s: Scan<T>): Scan<T> {
    s.(stopped := true, failed := true)
  }

  function StepNew<T>(s: Scan<T>, l: Line<T>): Scan<T> {
    if s.allowed && !l.blocksNew && !l.isInsert && !l.isRange then Take(s, 1, 0, 0, s.needs, s.saw, true)
    else if l.isBlank then Take(s, 0, 0, 0, s.needs, s.saw, false)
    else if l.isInsert then Take(s, l.inlined, 0, 1, s.needs, s.saw, true)
    else if l.isRange then Take(s, l.inlined, l.deleted, 1, s.needs, s.saw, l.takesRows)
    else Stop(s)
  }

  function StepLegacy<T>(s: Scan<T>, l: Line<T>): Scan<T> {
    if s.allowed && !l.blocksLegacy then Take(s, 1, 0, 0, false, true, true)
    else if Pending(s) then Stop(s)
    else if l.isBlank then Take(s, 0, 0, 0, false, false, false)
    else if l.legacyInsert then
      s.(sections := Add(s.sections, 0, 0, 1), needs := true, saw := false, allowed := true, read := s.read + 1)
    else if l.legacyReplace then Take(s, 0, l.legacyDeleted, 1, false, false, true)
    else Stop(s)
  }

  function Step<T>(s: Scan<T>, l: Line<T>): Scan<T> {
    if s.stopped then s
    else if !s.seen && l.isBlank then s.(parsed := s.read + 1, read := s.read + 1)
    else if l.isEnvelope then
      if Pending(s) then Stop(s).(seen := true) else Take(s, 0, 0, 0, s.needs, s.saw, false)
    else if l.header != NoHeader then
      if Pending(s) then Stop(s).(seen := true)
      else Scan(s.sections + [EditSection(l.target, 0, 0, 0)], l.header, false, false, false, true, s.read + 1, s.read + 1, false, false)
    else if s.sections == [] then Stop(s).(seen := true)
    else if s.format == NewHeader then StepNew(s, l)
    else StepLegacy(s, l)
  }

  /** The line makes the older grammar count deleted lines by a function that does not exist. */
  predicate CallsUndefined<T>(l: Line<T>) {
    var d := l.diff;
    !d.isDashes && !d.isHunkMark && !d.isFileMark && (d.isDelete || (d.isReplace && d.isEquals))
  }

  /** A leaked marker after an op, where a tail is expected. */
  predicate EndsTail<T>(s: Scan<T>, l: Line<T>, loose: bool) {
    loose && l.isMarker && s.sections != [] && s.sections[|s.sections| - 1].ops > 0
  }

  /** The older grammar; the allowed flag says that payload is being read. */
  function StepDiff<T>(s: Scan<T>, l: Line<T>, loose: bool): Scan<T> {
    var d := l.diff;
    if s.stopped then s
    else if EndsTail(s, l, loose) then Stop(s)
    else if d.isDashes then
      if !d.hasTarget then Stop(s)
      else Scan(s.sections + [EditSection(d.target, 0, 0, 0)], s.format, false, false, false, true, s.read + 1, s.read + 1, false, false)
    else if s.sections == [] then if l.isBlank then Take(s, 0, 0, 0, false, false, s.allowed) else Stop(s)
    else StepSection(s, l)
  }

  /** A line of a section. */
  function StepSection<T>(s: Scan<T>, l: Line<T>): Scan<T> {
    var d := l.diff;
    if d.isHunkMark then Take(s, 0, 0, 1, false, false, true)
    else if d.isFileMark then Take(s, 0, 0, 0, false, false, false)
    else if CallsUndefined(l) then Fail(s)
    else if d.isReplace then Take(s, d.tail, 0, 1, false, false, true)
    else if d.isPlus then Take(s, 1, 0, 0, false, false, true)
    else if s.allowed && d.isContext then Take(s, 0, if d.isMinus then 1 else 0, 0, false, false, true)
    else if s.allowed then Take(s, 1, 0, 0, false, false, true)
    else if l.isBlank then Take(s, 0, 0, 0, false, false, false)
    else Stop(s)
  }

  /** Which grammar is being read. */
  datatype Mode = Edits | Diff(loose: bool)

  function StepIn<T>(mode: Mode, s: Scan<T>, l: Line<T>): Scan<T> {
    match mode
    case Edits => Step(s, l)
    case Diff(loose) => StepDiff(s, l, loose)
  }

  function Steps<T>(mode: Mode, s: Scan<T>, lines: seq<Line<T>>): Scan<T>
    decreases |lines|
  {
    if lines == [] then s else Steps(mode, StepIn(mode, s, lines[0]), lines[1..])
  }

  lemma NextLine<T>(mode: Mode, s: Scan<T>, lines: seq<Line<T>>, i: nat)
    requires i < |lines|
    ensures Steps(mode, s, lines[i..]) == Steps(mode, StepIn(mode, s, lines[i]), lines[i + 1..])
  {
    assert lines[i..][1..] == lines[i + 1..];
  }

  lemma {:induction false} StoppedStays<T>(mode: Mode, s: Scan<T>, lines: seq<Line<T>>)
    requires s.stopped
    ensures Steps(mode, s, lines) == s
    decreases |lines|
  {
    if lines != [] {
      StoppedStays(mode, s, lines[1..]);
    }
  }

  method ScanLines<T>(mode: Mode, lines: seq<Line<T>>) returns (s: Scan<T>)
    ensures s == Steps(mode, Start<T>(), lines)
  {
    s := Start<T>();
    ghost var want := Steps(mode, s, lines);
    assert lines[0..] == lines;
    for i := 0 to |lines|
      invariant Steps(mode, s, lines[i..]) == want
    {
      NextLine(mode, s, lines, i);
      s := StepIn(mode, s, lines[i]);
      if s.stopped {
        StoppedStays(mode, s, lines[i + 1..]);
        return;
      }
    }
    assert lines[|lines|..] == [];
  }

  /** The first line that is not blank, stripped, starts with dashes. */
  predicate StartsWithDashes<T>(lines: seq<Line<T>>) {
    lines != [] && if lines[0].isBlank then StartsWithDashes(lines[1..]) else lines[0].stripsToDashes
  }

  /** The edit grammars first; the older one when they find no section and the text starts like it. */
  function Boundary<T>(lines: seq<Line<T>>, loose: bool): Scan<T> {
    var s := Steps(Edits, Start<T>(), lines);
    if s.sections == [] && StartsWithDashes(lines) then Steps(Diff(loose), Start<T>(), lines) else s
  }

  method ParseBoundary<T>(lines: seq<Line<T>>, loose: bool) returns (s: Scan<T>)
    ensures s == Boundary(lines, loose)
  {
    s := ScanLines(Edits, lines);
    if s.sections == [] && StartsWithDashes(lines) {
      s := ScanLines(Diff(loose), lines);
    }
  }

  // ----- Laws

  /** The same targets, payload counts and deleted counts. */
  ghost predicate SameContent<T>(a: seq<EditSection<T>>, b: seq<EditSection<T>>) {
    |a| == |b| && forall i | 0 <= i < |a| :: a[i].target == b[i].target && a[i].payload == b[i].payload && a[i].deleted == b[i].deleted
  }

  function Ops<T>(sections: seq<EditSection<T>>): nat {
    if sections == [] then 0 else Ops(sections[..|sections| - 1]) + sections[|sections| - 1].ops
  }

  lemma AddOps<T>(sections: seq<EditSection<T>>, payload: nat, deleted: nat, ops: nat)
    ensures sections != [] ==> Ops(Add(sections, payload, deleted, ops)) == Ops(sections) + ops
  {
    if sections != [] {
      var n := |sections| - 1;
      assert Add(sections, payload, deleted, ops)[..n] == sections[..n];
    }
  }

  /** Only legacy inserts leave something pending. */
  predicate Ok<T>(mode: Mode, s: Scan<T>) {
    && (mode.Diff? || s.format == NewHeader || s.sections == [] ==> !s.needs)
    && (mode.Edits? && s.sections != [] ==> s.seen)
    && (s.failed ==> mode.Diff? && s.stopped)
  }

  /** All that has been read stands. */
  ghost predicate Moved<T>(s: Scan<T>, next: Scan<T>) {
    !next.stopped && next.parsed == next.read == s.read + 1 && !Pending(next)
  }

  /** Boundary and content are untouched; an op may have been counted that still waits for its payload. */
  ghost predicate Kept<T>(s: Scan<T>, next: Scan<T>) {
    && next.parsed == s.parsed && SameContent(next.sections, s.sections)
    && (next.stopped || next.read == s.read + 1)
    && (Pending(s) ==> next.stopped && Pending(next))
    && Ops(next.sections) == Ops(s.sections) + if Pending(next) && !Pending(s) then 1 else 0
  }

  lemma NewMovesOrKeeps<T>(s: Scan<T>, l: Line<T>)
    requires !s.stopped && !s.failed && !s.needs && s.format == NewHeader && s.sections != [] && s.seen
    ensures var next := StepNew(s, l); (Moved(s, next) || Kept(s, next)) && Ok(Edits, next)
  {
  }

  lemma LegacyMovesOrKeeps<T>(s: Scan<T>, l: Line<T>)
    requires !s.stopped && !s.failed && s.format != NewHeader && s.sections != [] && s.seen
    ensures var next := StepLegacy(s, l); (Moved(s, next) || Kept(s, next)) && Ok(Edits, next)
  {
    AddOps(s.sections, 0, 0, 1);
  }

  lemma SectionMovesOrKeeps<T>(s: Scan<T>, l: Line<T>, loose: bool)
    requires !s.stopped && !s.failed && !s.needs
    ensures var next := StepSection(s, l); (Moved(s, next) || Kept(s, next)) && Ok(Diff(loose), next)
  {
  }

  lemma DiffMovesOrKeeps<T>(s: Scan<T>, l: Line<T>, loose: bool)
    requires !s.stopped && !s.failed && !s.needs
    ensures var next := StepDiff(s, l, loose); (Moved(s, next) || Kept(s, next)) && Ok(Diff(loose), next)
  {
    if EndsTail(s, l, loose) {
      assert Kept(s, Stop(s));
    } else if !l.diff.isDashes && s.sections != [] {
      SectionMovesOrKeeps(s, l, loose);
    }
  }

  /** A step moves the boundary to the line it reads and leaves nothing pending, or touches neither boundary nor content. */
  lemma StepMovesOrKeeps<T>(mode: Mode, s: Scan<T>, l: Line<T>)
    requires Ok(mode, s) && !s.stopped
    ensures var next := StepIn(mode, s, l); (Moved(s, next) || Kept(s, next)) && Ok(mode, next)
  {
    if mode.Diff? {
      DiffMovesOrKeeps(s, l, mode.loose);
    } else if s.sections != [] {
      if s.format == NewHeader {
        NewMovesOrKeeps(s, l);
      } else {
        LegacyMovesOrKeeps(s, l);
      }
    }
  }

  lemma SameTrans<T>(a: seq<EditSection<T>>, b: seq<EditSection<T>>, c: seq<EditSection<T>>)
    requires SameContent(a, b) && SameContent(b, c)
    ensures SameContent(a, c)
  {
  }

  /** The last line that moved the boundary: cut there, the scan ends with the same boundary and content. */
  lemma {:induction false} LastMove<T>(mode: Mode, s: Scan<T>, lines: seq<Line<T>>) returns (j: nat)
    requires Ok(mode, s) && !s.stopped
    ensures j <= |lines|
    ensures
      var m, r := Steps(mode, s, lines[..j]), Steps(mode, s, lines);
      && r.parsed == m.parsed && SameContent(r.sections, m.sections) && !m.stopped && Ok(mode, m)
      && (j > 0 ==> m.parsed == s.read + j && !Pending(m))
      && (j == 0 && Pending(s) ==> Pending(r))
      && Ops(r.sections) == Ops(m.sections) + if Pending(r) && !Pending(m) then 1 else 0
    decreases |lines|
  {
    if lines == [] {
      j := 0;
    } else {
      var next := StepIn(mode, s, lines[0]);
      StepMovesOrKeeps(mode, s, lines[0]);
      if next.stopped {
        StoppedStays(mode, next, lines[1..]);
        j := 0;
      } else {
        var k := LastMove(mode, next, lines[1..]);
        if k > 0 || Moved(s, next) {
          j := k + 1;
          assert lines[..j][1..] == lines[1..][..k];
        } else {
          j := 0;
          SameTrans(Steps(mode, s, lines).sections, next.sections, s.sections);
        }
      }
    }
  }

  /** Scanning again what stands gives it again: the same boundary, targets, payload and deleted counts, and all ops but one that still waits. */
  lemma ScanIsFixed<T>(mode: Mode, lines: seq<Line<T>>)
    ensures
      var s := Steps(mode, Start<T>(), lines);
      && s.parsed <= |lines|
      && var again := Steps(mode, Start<T>(), lines[..s.parsed]);
         && again.parsed == s.parsed && SameContent(again.sections, s.sections) && !again.failed
         && Ops(s.sections) == Ops(again.sections) + if Pending(s) then 1 else 0
  {
    var j := LastMove(mode, Start<T>(), lines);
    assert lines[..0] == [];
  }

  lemma OnlyGrows<T>(mode: Mode, s: Scan<T>, next: Scan<T>)
    requires s.parsed <= s.read && (Moved(s, next) || Kept(s, next)) && Ok(mode, next)
    ensures next.parsed >= s.parsed && (next.stopped || next.parsed <= next.read)
  {
  }

  lemma {:induction false} ParsedGrows<T>(mode: Mode, s: Scan<T>, lines: seq<Line<T>>)
    requires Ok(mode, s) && s.parsed <= s.read
    ensures Steps(mode, s, lines).parsed >= s.parsed
    decreases |lines|
  {
    if lines != [] {
      if s.stopped {
        StoppedStays(mode, s, lines);
      } else {
        var next := StepIn(mode, s, lines[0]);
        StepMovesOrKeeps(mode, s, lines[0]);
        OnlyGrows(mode, s, next);
        ParsedGrows(mode, next, lines[1..]);
      }
    }
  }

  lemma {:induction false} StepsConcat<T>(mode: Mode, s: Scan<T>, a: seq<Line<T>>, b: seq<Line<T>>)
    ensures Steps(mode, s, a + b) == Steps(mode, Steps(mode, s, a), b)
    decreases |a|
  {
    if a == [] {
      assert a + b == b;
    } else {
      assert (a + b)[1..] == a[1..] + b;
      StepsConcat(mode, StepIn(mode, s, a[0]), a[1..], b);
    }
  }

  lemma {:induction false} StepsAreOk<T>(mode: Mode, s: Scan<T>, lines: seq<Line<T>>)
    requires Ok(mode, s) && s.parsed <= s.read
    ensures var r := Steps(mode, s, lines); Ok(mode, r) && r.parsed <= r.read
    decreases |lines|
  {
    if lines != [] {
      if s.stopped {
        StoppedStays(mode, s, lines);
      } else {
        StepMovesOrKeeps(mode, s, lines[0]);
        StepsAreOk(mode, StepIn(mode, s, lines[0]), lines[1..]);
      }
    }
  }

  /** A prefix of the lines never reads further than all of them. */
  lemma PrefixReadsNoFurther<T>(mode: Mode, lines: seq<Line<T>>, k: nat)
    requires k <= |lines|
    ensures Steps(mode, Start<T>(), lines[..k]).parsed <= Steps(mode, Start<T>(), lines).parsed
    ensures Steps(mode, Start<T>(), lines[..k]).failed ==> Steps(mode, Start<T>(), lines).failed
  {
    var m := Steps(mode, Start<T>(), lines[..k]);
    assert lines[..k] + lines[k..] == lines;
    StepsConcat(mode, Start<T>(), lines[..k], lines[k..]);
    StepsAreOk(mode, Start<T>(), lines[..k]);
    ParsedGrows(mode, m, lines[k..]);
    if m.failed {
      StoppedStays(mode, m, lines[k..]);
    }
  }

  /** What no line is at once: dashes are no header and no envelope, and a blank line is nothing else. */
  predicate Lexed<T>(l: Line<T>) {
    && (l.stripsToDashes ==> !l.isBlank && !l.isEnvelope && l.header == NoHeader)
    && (l.isBlank ==> !l.diff.isDashes)
  }

  predicate AllLexed<T>(lines: seq<Line<T>>) {
    forall i | 0 <= i < |lines| :: Lexed(lines[i])
  }

  predicate AllBlank<T>(lines: seq<Line<T>>) {
    forall i | 0 <= i < |lines| :: lines[i].isBlank
  }

  /** Nothing has been read but blank lines. */
  ghost predicate Untouched<T>(mode: Mode, s: Scan<T>) {
    s.sections == [] && !s.stopped && !s.failed && !s.needs && s.parsed == s.read && (mode.Edits? ==> !s.seen)
  }

  lemma {:induction false} BlanksAreTaken<T>(mode: Mode, s: Scan<T>, blanks: seq<Line<T>>)
    requires Untouched(mode, s) && AllBlank(blanks) && AllLexed(blanks)
    ensures var r := Steps(mode, s, blanks); Untouched(mode, r) && r.parsed == s.parsed + |blanks|
    decreases |blanks|
  {
    if blanks != [] {
      assert blanks[0].isBlank && Lexed(blanks[0]);
      BlanksAreTaken(mode, StepIn(mode, s, blanks[0]), blanks[1..]);
    }
  }

  /** Blank lines first, then the one with the dashes. */
  lemma {:induction false} DashesComeAfterBlanks<T>(lines: seq<Line<T>>) returns (n: nat)
    requires StartsWithDashes(lines)
    ensures n < |lines| && AllBlank(lines[..n]) && lines[n].stripsToDashes
    decreases |lines|
  {
    if lines[0].isBlank {
      n := DashesComeAfterBlanks(lines[1..]);
      n := n + 1;
      assert forall i | 1 <= i < n :: lines[i] == lines[1..][i - 1];
    } else {
      n := 0;
    }
  }

  /** The edit grammars find nothing in such a text. */
  lemma DashesAreNoEdits<T>(lines: seq<Line<T>>)
    requires StartsWithDashes(lines) && AllLexed(lines)
    ensures Steps(Edits, Start<T>(), lines).sections == []
  {
    var n := DashesComeAfterBlanks(lines);
    var m := Steps(Edits, Start<T>(), lines[..n]);
    BlanksAreTaken(Edits, Start<T>(), lines[..n]);
    assert lines == lines[..n] + lines[n..];
    StepsConcat(Edits, Start<T>(), lines[..n], lines[n..]);
    assert Lexed(lines[n]);
    var next := Step(m, lines[n]);
    assert lines[n..][0] == lines[n];
    StoppedStays(Edits, next, lines[n..][1..]);
  }

  /** A prefix starts with dashes, or is blank, when the whole starts with dashes; and not otherwise. */
  lemma {:induction false} PrefixDashes<T>(lines: seq<Line<T>>, k: nat)
    requires k <= |lines| && AllLexed(lines)
    ensures StartsWithDashes(lines[..k]) ==> StartsWithDashes(lines)
    ensures StartsWithDashes(lines) && !StartsWithDashes(lines[..k]) ==> AllBlank(lines[..k])
    decreases k
  {
    if k > 0 {
      assert lines[..k][1..] == lines[1..][..k - 1] && Lexed(lines[0]);
      PrefixDashes(lines[1..], k - 1);
      assert forall i | 1 <= i < k :: lines[..k][i] == lines[1..][..k - 1][i - 1];
    }
  }

  /** The boundary is a fixed point: cutting the text there and looking again finds it again, with the same targets, payload and deleted counts, and raises nothing. */
  lemma BoundaryIsFixed<T>(lines: seq<Line<T>>, loose: bool)
    requires AllLexed(lines)
    ensures
      var s := Boundary(lines, loose);
      && s.parsed <= |lines|
      && var again := Boundary(lines[..s.parsed], loose);
         again.parsed == s.parsed && SameContent(again.sections, s.sections) && !again.failed
  {
    var s := Boundary(lines, loose);
    if StartsWithDashes(lines) {
      DashesAreNoEdits(lines);
      ScanIsFixed(Diff(loose), lines);
      PrefixDashes(lines, s.parsed);
      var cut := lines[..s.parsed];
      if StartsWithDashes(cut) {
        DashesAreNoEdits(cut);
      } else {
        BlanksAreTaken(Edits, Start<T>(), cut);
        BlanksAreTaken(Diff(loose), Start<T>(), cut);
      }
    } else {
      ScanIsFixed(Edits, lines);
      PrefixDashes(lines, s.parsed);
    }
  }

  /** Looking at fewer lines never finds a later boundary, and raises nothing that the whole does not. */
  lemma BoundaryOfPrefixIsNoLater<T>(lines: seq<Line<T>>, k: nat, loose: bool)
    requires k <= |lines| && AllLexed(lines)
    ensures Boundary(lines[..k], loose).parsed <= Boundary(lines, loose).parsed
    ensures Boundary(lines[..k], loose).failed ==> Boundary(lines, loose).failed
  {
    var cut := lines[..k];
    PrefixDashes(lines, k);
    if StartsWithDashes(lines) {
      DashesAreNoEdits(lines);
      PrefixReadsNoFurther(Diff(loose), lines, k);
      if StartsWithDashes(cut) {
        DashesAreNoEdits(cut);
      } else {
        BlanksAreTaken(Edits, Start<T>(), cut);
        BlanksAreTaken(Diff(loose), Start<T>(), cut);
      }
    } else {
      PrefixReadsNoFurther(Edits, lines, k);
    }
  }

  // ----- When an exception is raised, said of the lines alone

  predicate IsOp<T>(d: DiffLine<T>) {
    d.isHunkMark || (!d.isFileMark && d.isReplace)
  }

  predicate IsEdit<T>(d: DiffLine<T>) {
    d.isHunkMark || d.isFileMark || d.isDelete || d.isReplace || d.isPlus
  }

  /** Payload may follow. */
  predicate Opens<T>(d: DiffLine<T>) {
    IsOp(d) || (!d.isFileMark && d.isPlus)
  }

  /** There is a heading before line n. */
  predicate InSection<T>(lines: seq<Line<T>>, n: nat)
    requires n <= |lines|
  {
    n > 0 && (lines[n - 1].diff.isDashes || InSection(lines, n - 1))
  }

  /** There is an op between the last heading and line n. */
  predicate HasOp<T>(lines: seq<Line<T>>, n: nat)
    requires n <= |lines|
  {
    n > 0 && InSection(lines, n - 1) && !lines[n - 1].diff.isDashes && (IsOp(lines[n - 1].diff) || HasOp(lines, n - 1))
  }

  /** A line that payload may follow stands before line n, and neither a heading nor a file mark after it. */
  predicate InPayload<T>(lines: seq<Line<T>>, n: nat)
    requires n <= |lines|
  {
    && n > 0 && InSection(lines, n - 1) && !lines[n - 1].diff.isDashes
    && (Opens(lines[n - 1].diff) || (!lines[n - 1].diff.isFileMark && InPayload(lines, n - 1)))
  }

  /** The older grammar ends at line n: a marker where a tail is expected, a heading that names nothing, or text that belongs nowhere. */
  predicate EndsAt<T>(lines: seq<Line<T>>, loose: bool, n: nat)
    requires n < |lines|
  {
    var l := lines[n];
    || (loose && l.isMarker && HasOp(lines, n))
    || (if l.diff.isDashes then !l.diff.hasTarget
        else !l.isBlank && (InSection(lines, n) ==> !IsEdit(l.diff) && !InPayload(lines, n)))
  }

  /** Line n stands in a section and counts by the missing function, and nothing up to it ends the reading. */
  predicate RaisesAt<T>(lines: seq<Line<T>>, loose: bool, n: nat)
    requires n < |lines|
  {
    InSection(lines, n) && CallsUndefined(lines[n]) && forall i | 0 <= i <= n :: !EndsAt(lines, loose, i)
  }

  /** The scan knows of the lines read what the conditions say of them. */
  predicate Tracks<T>(s: Scan<T>, lines: seq<Line<T>>, n: nat)
    requires n <= |lines|
  {
    && !s.stopped && !s.failed
    && (s.sections != [] <==> InSection(lines, n))
    && (s.allowed <==> InPayload(lines, n))
    && (HasOp(lines, n) <==> s.sections != [] && s.sections[|s.sections| - 1].ops > 0)
  }

  lemma TracksOn<T>(s: Scan<T>, lines: seq<Line<T>>, loose: bool, n: nat)
    requires n < |lines| && Tracks(s, lines, n)
    ensures
      var next := StepDiff(s, lines[n], loose);
      if EndsAt(lines, loose, n) then next.stopped && !next.failed
      else if InSection(lines, n) && CallsUndefined(lines[n]) then next.failed
      else Tracks(next, lines, n + 1)
  {
  }

  lemma NextScan<T>(lines: seq<Line<T>>, loose: bool, n: nat)
    requires n < |lines|
    ensures
      Steps(Diff(loose), Start<T>(), lines[..n + 1]) == StepDiff(Steps(Diff(loose), Start<T>(), lines[..n]), lines[n], loose)
  {
    var m := Steps(Diff(loose), Start<T>(), lines[..n]);
    assert lines[..n + 1] == lines[..n] + [lines[n]] && [lines[n]][1..] == [];
    StepsConcat(Diff(loose), Start<T>(), lines[..n], [lines[n]]);
    assert Steps(Diff(loose), m, [lines[n]]) == StepDiff(m, lines[n], loose);
  }

  /** While no line ends the reading, the scan goes on, or has failed. */
  lemma {:induction false} ReadsOn<T>(lines: seq<Line<T>>, loose: bool, n: nat)
    requires n <= |lines| && forall i | 0 <= i < n :: !EndsAt(lines, loose, i)
    ensures var s := Steps(Diff(loose), Start<T>(), lines[..n]); s.failed || Tracks(s, lines, n)
    ensures Steps(Diff(loose), Start<T>(), lines[..n]).failed ==> exists i :: 0 <= i < n && RaisesAt(lines, loose, i)
  {
    if n == 0 {
      assert lines[..0] == [];
    } else {
      var s := Steps(Diff(loose), Start<T>(), lines[..n - 1]);
      ReadsOn(lines, loose, n - 1);
      NextScan(lines, loose, n - 1);
      if s.failed {
        StepsAreOk(Diff(loose), Start<T>(), lines[..n - 1]);
      } else {
        TracksOn(s, lines, loose, n - 1);
        if InSection(lines, n - 1) && CallsUndefined(lines[n - 1]) { assert RaisesAt(lines, loose, n - 1); }
      }
    }
  }

  lemma FailureStays<T>(lines: seq<Line<T>>, loose: bool, n: nat)
    requires n <= |lines| && Steps(Diff(loose), Start<T>(), lines[..n]).failed
    ensures Steps(Diff(loose), Start<T>(), lines).failed
  {
    PrefixReadsNoFurther(Diff(loose), lines, n);
  }

  /** A line that raises makes the scan fail. */
  lemma RaisingFails<T>(lines: seq<Line<T>>, loose: bool, n: nat)
    requires n < |lines| && RaisesAt(lines, loose, n)
    ensures Steps(Diff(loose), Start<T>(), lines).failed
  {
    var s := Steps(Diff(loose), Start<T>(), lines[..n]);
    ReadsOn(lines, loose, n);
    if s.failed {
      FailureStays(lines, loose, n);
    } else {
      TracksOn(s, lines, loose, n);
      NextScan(lines, loose, n);
      FailureStays(lines, loose, n + 1);
    }
  }

  /** A scan ends where the first line ends it, or fails before. */
  lemma EndingStops<T>(lines: seq<Line<T>>, loose: bool, n: nat)
    requires n < |lines| && EndsAt(lines, loose, n) && forall i | 0 <= i < n :: !EndsAt(lines, loose, i)
    ensures Steps(Diff(loose), Start<T>(), lines).failed ==> exists i :: 0 <= i < n && RaisesAt(lines, loose, i)
  {
    var s := Steps(Diff(loose), Start<T>(), lines[..n]);
    ReadsOn(lines, loose, n);
    if !s.failed {
      TracksOn(s, lines, loose, n);
      NextScan(lines, loose, n);
      StepsConcat(Diff(loose), Start<T>(), lines[..n + 1], lines[n + 1..]);
      assert lines[..n + 1] + lines[n + 1..] == lines;
      StoppedStays(Diff(loose), StepDiff(s, lines[n], loose), lines[n + 1..]);
    }
  }

  lemma {:induction false} FirstEnd<T>(lines: seq<Line<T>>, loose: bool, n: nat) returns (k: nat)
    requires n <= |lines|
    ensures k <= n && (k < n ==> EndsAt(lines, loose, k)) && forall i | 0 <= i < k :: !EndsAt(lines, loose, i)
  {
    k := 0;
    if n > 0 {
      k := FirstEnd(lines, loose, n - 1);
      if k == n - 1 && !EndsAt(lines, loose, k) { k := n; }
    }
  }

  /** Looking for a boundary raises an exception exactly when the older grammar is chosen and the lines hold, inside a section that nothing has ended, a deletion or a replacement by an equals sign. */
  lemma RaisesExactly<T>(lines: seq<Line<T>>, loose: bool)
    requires AllLexed(lines)
    ensures
      Boundary(lines, loose).failed
      <==> StartsWithDashes(lines) && exists n :: 0 <= n < |lines| && RaisesAt(lines, loose, n)
  {
    StepsAreOk(Edits, Start<T>(), lines);
    if StartsWithDashes(lines) {
      DashesAreNoEdits(lines);
      if n :| 0 <= n < |lines| && RaisesAt(lines, loose, n) {
        RaisingFails(lines, loose, n);
      }
      var k := FirstEnd(lines, loose, |lines|);
      if k < |lines| {
        EndingStops(lines, loose, k);
      } else {
        ReadsOn(lines, loose, |lines|);
        assert lines[..|lines|] == lines;
      }
    }
  }

  /** A heading and one deletion are enough. */
  lemma OneDeletionRaises<T>(heading: Line<T>, deletion: Line<T>, loose: bool)
    requires Lexed(heading) && Lexed(deletion) && heading.stripsToDashes && heading.diff.isDashes && heading.diff.hasTarget
    requires CallsUndefined(deletion)
    ensures Boundary([heading, deletion], loose).failed
  {
    var lines := [heading, deletion];
    assert !InSection(lines, 0) && !HasOp(lines, 1);
    assert RaisesAt(lines, loose, 1);
    RaisesExactly(lines, loose);
  }
}
