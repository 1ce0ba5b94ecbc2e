/** Reading edit scripts of three generations into one shape. */
module HashlineParser {
  import opened Wrappers

  /** Which op a line is in the verb grammar. */
  datatype Verb = NoVerb | Replace | Delete | Insert

  /** Which op a line is in the sigil grammar or in a legacy section. */
  datatype Mark = NoMark | Inserting | Replacing | Deleting

  /** A line and everything it could be: what it is depends on where it stands. */
  datatype Line<T> = Line(
    text: T,
    isBegin: bool, isStop: bool,
    isHeader: bool, isLegacyHeader: bool, target: T,
    verb: Verb, verbOp: Op<T>,
    sigil: Mark, sigilOp: Op<T>, inlined: Option<T>,
    legacy: Mark, legacyOp: Op<T>,
    isRow: bool, row: T)

  /** What an op line says: the anchors as written, the lines it names, how many it deletes. */
  datatype Op<T> = Op(anchors: seq<T>, lines: seq<nat>, deleted: nat)

  datatype EditSection<T> = EditSection(
    target: T, blocks: seq<seq<T>>, anchors: seq<T>, deleted: nat, ops: nat, minLine: Option<nat>, maxLine: Option<nat>)

  function Fresh<T>(target: T): EditSection<T> {
    EditSection(target, [], [], 0, 0, None, None)
  }

  function Touch<T>(s: EditSection<T>, line: nat): EditSection<T> {
    s.(minLine := Some(if s.minLine.Some? && s.minLine.value <= line then s.minLine.value else line),
       maxLine := Some(if s.maxLine.Some? && s.maxLine.value >= line then s.maxLine.value else line))
  }

  function TouchAll<T>(s: EditSection<T>, lines: seq<nat>): EditSection<T>
    decreases |lines|
  {
    if lines == [] then s else TouchAll(Touch(s, lines[0]), lines[1..])
  }

  /** Takes an op in; unless it deletes, it opens a payload block. */
  function TakeOp<T>(s: EditSection<T>, op: Op<T>, opens: bool): EditSection<T> {
    TouchAll(
      s.(anchors := s.anchors + op.anchors, deleted := s.deleted + op.deleted, ops := s.ops + 1,
         blocks := if opens then s.blocks + [[]] else s.blocks),
      op.lines)
  }

  /** Adds a line to the last block. */
  function AddRow<T>(s: EditSection<T>, row: T): EditSection<T>
    requires s.blocks != []
  {
    var n := |s.blocks| - 1;
    s.(blocks := s.blocks[n := s.blocks[n] + [row]])
  }

  datatype Grammar = Undecided | Verbs | Sigils | Legacy

  /** Sections done, the current one, its grammar, and whether its last block is open. */
  datatype State<T> = State(sections: seq<EditSection<T>>, cur: Option<EditSection<T>>, grammar: Grammar, open: bool, stopped: bool)

  ghost predicate Valid<T>(st: State<T>) {
    st.open ==> st.cur.Some? && st.cur.value.blocks != []
  }

  function Finished<T>(st: State<T>): seq<EditSection<T>> {
    if st.cur.Some? then st.sections + [st.cur.value] else st.sections
  }

  lemma TouchKeepsBlocks<T>(s: EditSection<T>, lines: seq<nat>)
    ensures TouchAll(s, lines).blocks == s.blocks
    decreases |lines|
  {
    if lines != [] {
      TouchKeepsBlocks(Touch(s, lines[0]), lines[1..]);
    }
  }

  /** An op line, then its inline text as the first row of its block. */
  function OpStep<T>(st: State<T>, op: Op<T>, opens: bool, inlined: Option<T>, g: Grammar): (next: State<T>)
    requires st.cur.Some?
    ensures Valid(next)
  {
    var s := TakeOp(st.cur.value, op, opens);
    TouchKeepsBlocks(
      st.cur.value.(anchors := st.cur.value.anchors + op.anchors, deleted := st.cur.value.deleted + op.deleted, ops := st.cur.value.ops + 1,
                    blocks := if opens then st.cur.value.blocks + [[]] else st.cur.value.blocks),
      op.lines);
    State(st.sections, Some(if opens && inlined.Some? then AddRow(s, inlined.value) else s), g, opens, false)
  }

  function RowStep<T>(st: State<T>, row: T): (next: State<T>)
    requires st.cur.Some? && Valid(st)
    ensures Valid(next)
  {
    if st.open then st.(cur := Some(AddRow(st.cur.value, row))) else st
  }

  function Step<T>(st: State<T>, l: Line<T>): (next: State<T>)
    requires Valid(st)
    ensures Valid(next)
  {
    if st.stopped || l.isBegin then st
    else if l.isStop then st.(stopped := true)
    else if l.isHeader then State(Finished(st), Some(Fresh(l.target)), Undecided, false, false)
    else if l.isLegacyHeader then State(Finished(st), Some(Fresh(l.target)), Legacy, false, false)
    else if st.cur.None? then st
    else if st.grammar == Legacy then
      if l.legacy == NoMark then RowStep(st, l.text) else OpStep(st, l.legacyOp, true, None, Legacy)
    else if st.grammar != Sigils && l.verb != NoVerb then OpStep(st, l.verbOp, l.verb != Delete, None, Verbs)
    else if st.grammar == Verbs then if l.isRow then RowStep(st, l.row) else st
    else if l.sigil == NoMark then RowStep(st, l.text)
    else OpStep(st, l.sigilOp, l.sigil != Deleting, l.inlined, Sigils)
  }

  function Steps<T>(st: State<T>, lines: seq<Line<T>>): (next: State<T>)
    requires Valid(st)
    ensures Valid(next)
    decreases |lines|
  {
    if lines == [] then st else Steps(Step(st, lines[0]), lines[1..])
  }

  function Start<T>(): State<T> {
    State([], None, Undecided, false, false)
  }

  function Parsed<T>(lines: seq<Line<T>>): seq<EditSection<T>> {
    Finished(Steps(Start<T>(), lines))
  }

  lemma NextStep<T>(st: State<T>, lines: seq<Line<T>>, i: nat)
    requires Valid(st) && i < |lines|
    ensures Steps(st, lines[i..]) == Steps(Step(st, lines[i]), lines[i + 1..])
  {
    assert lines[i..][1..] == lines[i + 1..];
  }

  lemma {:induction false} StoppedStays<T>(st: State<T>, lines: seq<Line<T>>)
    requires Valid(st) && st.stopped
    ensures Steps(st, lines) == st
    decreases |lines|
  {
    if lines != [] {
      StoppedStays(st, lines[1..]);
    }
  }

  method ParseLines<T>(lines: seq<Line<T>>) returns (result: seq<EditSection<T>>)
    ensures result == Parsed(lines)
  {
    var st := Start<T>();
    ghost var want := Steps(st, lines);
    assert lines[0..] == lines;
    for i := 0 to |lines|
      invariant Valid(st) && !st.stopped
      invariant Steps(st, lines[i..]) == want
    {
      NextStep(st, lines, i);
      var l := lines[i];
      if l.isBegin {
        continue;
      }
      if l.isStop {
        StoppedStays(st.(stopped := true), lines[i + 1..]);
        result := Finished(st);
        return;
      }
      if l.isHeader || l.isLegacyHeader {
        st := State(Finished(st), Some(Fresh(l.target)), if l.isHeader then Undecided else Legacy, false, false);
      } else if st.cur.Some? {
        if st.grammar == Legacy {
          st := if l.legacy == NoMark then RowStep(st, l.text) else OpStep(st, l.legacyOp, true, None, Legacy);
        } else if st.grammar != Sigils && l.verb != NoVerb {
          st := OpStep(st, l.verbOp, l.verb != Delete, None, Verbs);
        } else if st.grammar == Verbs {
          if l.isRow {
            st := RowStep(st, l.row);
          }
        } else {
          st := if l.sigil == NoMark then RowStep(st, l.text) else OpStep(st, l.sigilOp, l.sigil != Deleting, l.inlined, Sigils);
        }
      }
    }
    assert lines[|lines|..] == [];
    result := Finished(st);
  }

  // ----- Scripts as the verb grammar writes them

  predicate IsPlain<T>(l: Line<T>) {
    !l.isBegin && !l.isStop && !l.isHeader && !l.isLegacyHeader
  }

  /** A payload row: its marker keeps it from being anything else. */
  predicate IsRowLine<T>(l: Line<T>) {
    IsPlain(l) && l.verb == NoVerb && l.isRow
  }

  predicate IsOpLine<T>(l: Line<T>) {
    IsPlain(l) && l.verb != NoVerb
  }

  predicate IsHeaderLine<T>(l: Line<T>) {
    l.isHeader && !l.isBegin && !l.isStop
  }

  datatype WrittenOp<T> = WrittenOp(line: Line<T>, rows: seq<Line<T>>)

  datatype WrittenSection<T> = WrittenSection(header: Line<T>, ops: seq<WrittenOp<T>>)

  predicate GoodOp<T>(op: WrittenOp<T>) {
    IsOpLine(op.line) && (op.line.verb == Delete ==> op.rows == []) && forall i | 0 <= i < |op.rows| :: IsRowLine(op.rows[i])
  }

  predicate GoodSection<T>(s: WrittenSection<T>) {
    IsHeaderLine(s.header) && forall i | 0 <= i < |s.ops| :: GoodOp(s.ops[i])
  }

  function OpLines<T>(ops: seq<WrittenOp<T>>): seq<Line<T>> {
    if ops == [] then [] else [ops[0].line] + (ops[0].rows + OpLines(ops[1..]))
  }

  function SectionLines<T>(sections: seq<WrittenSection<T>>): seq<Line<T>> {
    if sections == [] then [] else [sections[0].header] + (OpLines(sections[0].ops) + SectionLines(sections[1..]))
  }

  // ----- What they mean

  function RowsOf<T>(rows: seq<Line<T>>): seq<T> {
    if rows == [] then [] else [rows[0].row] + RowsOf(rows[1..])
  }

  function BlocksOf<T>(ops: seq<WrittenOp<T>>): seq<seq<T>> {
    if ops == [] then []
    else (if ops[0].line.verb == Delete then [] else [RowsOf(ops[0].rows)]) + BlocksOf(ops[1..])
  }

  function AnchorsOf<T>(ops: seq<WrittenOp<T>>): seq<T> {
    if ops == [] then [] else ops[0].line.verbOp.anchors + AnchorsOf(ops[1..])
  }

  function LinesOf<T>(ops: seq<WrittenOp<T>>): seq<nat> {
    if ops == [] then [] else ops[0].line.verbOp.lines + LinesOf(ops[1..])
  }

  function DeletedBy<T>(ops: seq<WrittenOp<T>>): nat {
    if ops == [] then 0 else ops[0].line.verbOp.deleted + DeletedBy(ops[1..])
  }

  /** The bound of a list of lines, if there are any. */
  ghost predicate IsLeast(m: Option<nat>, lines: seq<nat>) {
    if lines == [] then m == None
    else m.Some? && m.value in lines && forall n | n in lines :: m.value <= n
  }

  ghost predicate IsGreatest(m: Option<nat>, lines: seq<nat>) {
    if lines == [] then m == None
    else m.Some? && m.value in lines && forall n | n in lines :: n <= m.value
  }

  /** The section has exactly what its ops say. */
  ghost predicate Means<T>(s: EditSection<T>, target: T, ops: seq<WrittenOp<T>>) {
    && s.target == target
    && s.blocks == BlocksOf(ops) && s.anchors == AnchorsOf(ops)
    && s.deleted == DeletedBy(ops) && s.ops == |ops|
    && IsLeast(s.minLine, LinesOf(ops)) && IsGreatest(s.maxLine, LinesOf(ops))
  }

  // ----- Reading them back

  lemma {:induction false} StepsConcat<T>(st: State<T>, a: seq<Line<T>>, b: seq<Line<T>>)
    requires Valid(st)
    ensures Steps(st, a + b) == Steps(Steps(st, a), b)
    decreases |a|
  {
    if a == [] {
      assert a + b == b;
    } else {
      assert (a + b)[1..] == a[1..] + b;
      StepsConcat(Step(st, a[0]), a[1..], b);
    }
  }

  /** A section with some lines touched so far. */
  ghost predicate Bounded<T>(s: EditSection<T>, lines: seq<nat>) {
    IsLeast(s.minLine, lines) && IsGreatest(s.maxLine, lines)
  }

  lemma TouchBounds<T>(s: EditSection<T>, lines: seq<nat>, line: nat)
    requires Bounded(s, lines)
    ensures Bounded(Touch(s, line), lines + [line])
  {
    assert forall n | n in lines + [line] :: n in lines || n == line;
    assert line in lines + [line] && forall n | n in lines :: n in lines + [line];
  }

  lemma {:induction false} TouchAllBounds<T>(s: EditSection<T>, before: seq<nat>, lines: seq<nat>)
    requires Bounded(s, before)
    ensures Bounded(TouchAll(s, lines), before + lines)
    ensures
      var t := TouchAll(s, lines);
      t.target == s.target && t.blocks == s.blocks && t.anchors == s.anchors && t.deleted == s.deleted && t.ops == s.ops
    decreases |lines|
  {
    if lines == [] {
      assert before + lines == before;
    } else {
      TouchBounds(s, before, lines[0]);
      TouchAllBounds(Touch(s, lines[0]), before + [lines[0]], lines[1..]);
      assert before + [lines[0]] + lines[1..] == before + lines;
    }
  }

  /** Rows go, in order, to the open block. */
  lemma {:induction false} RowsAreTaken<T>(st: State<T>, blocks: seq<seq<T>>, block: seq<T>, rows: seq<Line<T>>)
    requires Valid(st) && st.open && st.grammar == Verbs && !st.stopped && st.cur.value.blocks == blocks + [block]
    requires forall i | 0 <= i < |rows| :: IsRowLine(rows[i])
    ensures Steps(st, rows) == st.(cur := Some(st.cur.value.(blocks := blocks + [block + RowsOf(rows)])))
    decreases |rows|
  {
    if rows == [] {
      assert block + RowsOf(rows) == block;
    } else {
      assert IsRowLine(rows[0]);
      var next := Step(st, rows[0]);
      assert next.cur.value.blocks == blocks + [block + [rows[0].row]];
      RowsAreTaken(next, blocks, block + [rows[0].row], rows[1..]);
      assert block + [rows[0].row] + RowsOf(rows[1..]) == block + RowsOf(rows);
    }
  }

  datatype Sums<T> = Sums(blocks: seq<seq<T>>, anchors: seq<T>, deleted: nat, ops: nat, lines: seq<nat>)

  /** The section has come to this. */
  ghost predicate Has<T>(s: EditSection<T>, target: T, x: Sums<T>) {
    && s.target == target && s.blocks == x.blocks && s.anchors == x.anchors && s.deleted == x.deleted && s.ops == x.ops
    && Bounded(s, x.lines)
  }

  function Plus<T>(x: Sums<T>, op: WrittenOp<T>): Sums<T> {
    var o := op.line.verbOp;
    Sums(if op.line.verb == Delete then x.blocks else x.blocks + [RowsOf(op.rows)],
         x.anchors + o.anchors, x.deleted + o.deleted, x.ops + 1, x.lines + o.lines)
  }

  ghost predicate InVerbs<T>(st: State<T>) {
    Valid(st) && st.cur.Some? && !st.stopped && (st.grammar == Undecided || st.grammar == Verbs)
  }

  lemma OpIsTaken<T>(st: State<T>, x: Sums<T>, op: WrittenOp<T>) returns (next: State<T>)
    requires InVerbs(st) && Has(st.cur.value, st.cur.value.target, x) && GoodOp(op)
    ensures next == Steps(st, [op.line] + op.rows)
    ensures InVerbs(next) && next.sections == st.sections && Has(next.cur.value, st.cur.value.target, Plus(x, op))
  {
    var s, o, opens := st.cur.value, op.line.verbOp, op.line.verb != Delete;
    var base := s.(anchors := s.anchors + o.anchors, deleted := s.deleted + o.deleted, ops := s.ops + 1,
                   blocks := if opens then s.blocks + [[]] else s.blocks);
    TouchAllBounds(base, x.lines, o.lines);
    var one := Step(st, op.line);
    assert ([op.line] + op.rows)[1..] == op.rows;
    next := Steps(one, op.rows);
    if opens {
      RowsAreTaken(one, s.blocks, [], op.rows);
      assert [] + RowsOf(op.rows) == RowsOf(op.rows);
    }
  }

  function SumAll<T>(x: Sums<T>, ops: seq<WrittenOp<T>>): Sums<T>
    decreases |ops|
  {
    if ops == [] then x else SumAll(Plus(x, ops[0]), ops[1..])
  }

  lemma {:induction false} OpsAreTaken<T>(st: State<T>, x: Sums<T>, ops: seq<WrittenOp<T>>) returns (next: State<T>)
    requires InVerbs(st) && Has(st.cur.value, st.cur.value.target, x) && forall i | 0 <= i < |ops| :: GoodOp(ops[i])
    ensures next == Steps(st, OpLines(ops))
    ensures InVerbs(next) && next.sections == st.sections && Has(next.cur.value, st.cur.value.target, SumAll(x, ops))
    decreases |ops|
  {
    if ops == [] {
      next := st;
    } else {
      var first, rest := [ops[0].line] + ops[0].rows, OpLines(ops[1..]);
      assert OpLines(ops) == first + rest;
      var one := OpIsTaken(st, x, ops[0]);
      StepsConcat(st, first, rest);
      next := OpsAreTaken(one, Plus(x, ops[0]), ops[1..]);
    }
  }

  /** Summing as one goes is what the ops mean together. */
  lemma {:induction false} SumsAddUp<T>(x: Sums<T>, ops: seq<WrittenOp<T>>)
    ensures
      SumAll(x, ops)
      == Sums(x.blocks + BlocksOf(ops), x.anchors + AnchorsOf(ops), x.deleted + DeletedBy(ops), x.ops + |ops|, x.lines + LinesOf(ops))
    decreases |ops|
  {
    if ops == [] {
      assert x.blocks + [] == x.blocks && x.anchors + [] == x.anchors && x.lines + [] == x.lines;
    } else {
      var o := ops[0].line.verbOp;
      var own := if ops[0].line.verb == Delete then [] else [RowsOf(ops[0].rows)];
      SumsAddUp(Plus(x, ops[0]), ops[1..]);
      assert x.blocks + [] == x.blocks;
      Associate(x.blocks, own, BlocksOf(ops[1..]));
      Associate(x.anchors, o.anchors, AnchorsOf(ops[1..]));
      Associate(x.lines, o.lines, LinesOf(ops[1..]));
    }
  }

  lemma Associate<A>(a: seq<A>, b: seq<A>, c: seq<A>)
    ensures a + b + c == a + (b + c)
  {
  }

  lemma SectionIsRead<T>(st: State<T>, s: WrittenSection<T>) returns (next: State<T>)
    requires Valid(st) && !st.stopped && GoodSection(s)
    ensures next == Steps(st, [s.header] + OpLines(s.ops))
    ensures Valid(next) && !next.stopped && next.cur.Some? && next.sections == Finished(st)
    ensures Means(next.cur.value, s.header.target, s.ops)
  {
    var one := Step(st, s.header);
    var zero: Sums<T> := Sums([], [], 0, 0, []);
    assert ([s.header] + OpLines(s.ops))[1..] == OpLines(s.ops);
    next := OpsAreTaken(one, zero, s.ops);
    SumsAddUp(zero, s.ops);
    assert [] + BlocksOf(s.ops) == BlocksOf(s.ops) && [] + AnchorsOf(s.ops) == AnchorsOf(s.ops) && [] + LinesOf(s.ops) == LinesOf(s.ops);
  }

  ghost predicate AllMean<T>(read: seq<EditSection<T>>, written: seq<WrittenSection<T>>) {
    |read| == |written| && forall i | 0 <= i < |read| :: Means(read[i], written[i].header.target, written[i].ops)
  }

  lemma {:induction false} SectionsAreRead<T>(st: State<T>, sections: seq<WrittenSection<T>>) returns (read: seq<EditSection<T>>)
    requires Valid(st) && !st.stopped && forall i | 0 <= i < |sections| :: GoodSection(sections[i])
    ensures Finished(Steps(st, SectionLines(sections))) == Finished(st) + read && AllMean(read, sections)
    ensures !Steps(st, SectionLines(sections)).stopped
    decreases |sections|
  {
    if sections == [] {
      read := [];
      assert Finished(st) + [] == Finished(st);
    } else {
      var s, rest := sections[0], SectionLines(sections[1..]);
      var first := [s.header] + OpLines(s.ops);
      assert SectionLines(sections) == first + rest;
      var one := SectionIsRead(st, s);
      StepsConcat(st, first, rest);
      read := SectionsAreRead(one, sections[1..]);
      Associate(Finished(st), [one.cur.value], read);
      read := MeanCons(one.cur.value, read, sections);
    }
  }

  lemma MeanCons<T>(first: EditSection<T>, rest: seq<EditSection<T>>, sections: seq<WrittenSection<T>>) returns (all: seq<EditSection<T>>)
    requires sections != [] && Means(first, sections[0].header.target, sections[0].ops) && AllMean(rest, sections[1..])
    ensures all == [first] + rest && AllMean(all, sections)
  {
    all := [first] + rest;
    assert forall i | 1 <= i < |sections| :: sections[i] == sections[1..][i - 1];
  }

  /** A script written in the verb grammar, between its envelope markers or without them, reads back as what it means. */
  lemma WrittenScriptReadsBack<T>(begin: seq<Line<T>>, sections: seq<WrittenSection<T>>, end: seq<Line<T>>)
    requires forall i | 0 <= i < |begin| :: begin[i].isBegin
    requires forall i | 0 <= i < |sections| :: GoodSection(sections[i])
    requires end != [] ==> end[0].isStop && !end[0].isBegin
    ensures AllMean(Parsed(begin + (SectionLines(sections) + end)), sections)
  {
    var body := SectionLines(sections);
    BeginIsSkipped(Start<T>(), begin);
    StepsConcat(Start<T>(), begin, body + end);
    StepsConcat(Start<T>(), body, end);
    var read := SectionsAreRead(Start<T>(), sections);
    assert [] + read == read;
    if end != [] {
      var st := Steps(Start<T>(), body);
      StoppedStays(st.(stopped := true), end[1..]);
    }
  }

  lemma {:induction false} BeginIsSkipped<T>(st: State<T>, begin: seq<Line<T>>)
    requires Valid(st) && forall i | 0 <= i < |begin| :: begin[i].isBegin
    ensures Steps(st, begin) == st
    decreases |begin|
  {
    if begin != [] {
      BeginIsSkipped(st, begin[1..]);
    }
  }
}

/** The lines of an edit script. */
module HashlineText {
  import opened Wrappers
  import opened Decimal
  import opened HashlineParser

  /** White space as regular expressions and stripping know it. */
  predicate IsSpace(c: char) {
    || '\t' <= c <= '\r' || '\U{001C}' <= c <= ' ' || c == '\U{0085}' || c == '\U{00A0}' || c == '\U{1680}'
    || '\U{2000}' <= c <= '\U{200A}' || c == '\U{2028}' || c == '\U{2029}' || c == '\U{202F}' || c == '\U{205F}' || c == '\U{3000}'
  }

  const PILCROW := '\U{00B6}'
  const SECTION := '\U{00A7}'

  /** First position from i on where the test fails. */
  function Skip(s: string, i: nat, test: char -> bool): (k: nat)
    requires i <= |s|
    ensures i <= k <= |s|
    ensures forall j | i <= j < k :: test(s[j])
    ensures k < |s| ==> !test(s[k])
    decreases |s| - i
  {
    if i < |s| && test(s[i]) then Skip(s, i + 1, test) else i
  }

  function Spaces(s: string, i: nat): (k: nat)
    requires i <= |s|
    ensures i <= k <= |s|
  {
    Skip(s, i, IsSpace)
  }

  function Digits(s: string, i: nat): (k: nat)
    requires i <= |s|
    ensures i <= k <= |s|
    ensures AllDigits(s[i..k])
  {
    Skip(s, i, IsDigit)
  }

  /** A numeral without leading zeros ends at k. */
  predicate IsNumeral(s: string, i: nat, k: nat)
    requires i <= k <= |s|
  {
    i < k && s[i] != '0'
  }

  predicate HasAt(s: string, i: nat, word: string) {
    i + |word| <= |s| && s[i..i + |word|] == word
  }

  function DropSpaces(s: string): string {
    if s != "" && IsSpace(s[|s| - 1]) then DropSpaces(s[..|s| - 1]) else s
  }

  function Strip(s: string): string {
    DropSpaces(s[Spaces(s, 0)..])
  }

  /** Pilcrows, white space, a path, a tag perhaps, white space: where the path is. */
  function HeaderTarget(s: string): Option<string> {
    var i := Skip(s, 0, c => c == PILCROW);
    var j := Spaces(s, i);
    var k := Skip(s, j, c => !IsSpace(c) && c != '#' && c != PILCROW);
    var m := if k < |s| && s[k] == '#' then Skip(s, k + 1, c => !IsSpace(c)) else k;
    if i > 0 && k > j && m != k + 1 && Spaces(s, m) == |s| then Some(s[j..k]) else None
  }

  /** A range of lines: its second line is the first when there is no second. */
  datatype Range = Range(a: nat, b: nat, end: nat)

  /** The separator of a range, if there is one at i: where it ends. */
  function Separator(s: string, i: nat): (k: nat)
    requires i <= |s|
    ensures i <= k <= |s|
  {
    if HasAt(s, i, "..") then i + 2
    else if i < |s| && (s[i] == '-' || s[i] == '\U{2026}') then i + 1
    else i
  }

  /** White space, a numeral, and perhaps a separator and another numeral, from i on. */
  function ReadRange(s: string, i: nat): (r: Option<Range>)
    requires i <= |s|
    ensures r.Some? ==> r.value.end <= |s|
  {
    var a := Spaces(s, i);
    var aEnd := Digits(s, a);
    var sep := Spaces(s, aEnd);
    var b := Spaces(s, Separator(s, sep));
    var bEnd := Digits(s, b);
    if a == i || !IsNumeral(s, a, aEnd) then None
    else if Separator(s, sep) > sep && IsNumeral(s, b, bEnd) then
      Some(Range(DigitsValue(s[a..aEnd]), DigitsValue(s[b..bEnd]), bEnd))
    else Some(Range(DigitsValue(s[a..aEnd]), DigitsValue(s[a..aEnd]), aEnd))
  }

  /** White space, perhaps a colon and white space, and the end. */
  predicate EndsAfter(s: string, i: nat, colon: bool)
    requires i <= |s|
  {
    var j := Spaces(s, i);
    j == |s| || (colon && s[j] == ':' && Spaces(s, j + 1) == |s|)
  }

  function RangeOp(a: nat, b: nat): Op<string> {
    Op(if a == b then [PrintNat(a)] else [PrintNat(a), PrintNat(b)], [a, b], if b >= a then b - a + 1 else 1)
  }

  const NO_OP: Op<string> := Op([], [], 0)

  /** The rest of a replace or delete op: a range, and for a replace perhaps a colon. */
  function LexRange(s: string, i: nat, verb: Verb): (Verb, Op<string>)
    requires i <= |s|
  {
    var r := ReadRange(s, i);
    if r.Some? && EndsAfter(s, r.value.end, verb == Replace) then (verb, RangeOp(r.value.a, r.value.b)) else (NoVerb, NO_OP)
  }

  const REPLACE := "replace"
  const DELETE := "delete"
  const INSERT := "insert"

  function LexVerb(s: string): (Verb, Op<string>) {
    var i := Spaces(s, 0);
    if HasAt(s, i, REPLACE) then LexRange(s, i + |REPLACE|, Replace)
    else if HasAt(s, i, DELETE) then LexRange(s, i + |DELETE|, Delete)
    else if HasAt(s, i, INSERT) then LexInsert(s, i + |INSERT|)
    else (NoVerb, NO_OP)
  }

  const BEFORE := "before"
  const AFTER := "after"
  const HEAD := "head"
  const TAIL := "tail"

  /** The rest of an insert op: a place and a line, or an end of the file. */
  function LexInsert(s: string, i: nat): (Verb, Op<string>)
    requires i <= |s|
  {
    var j := Spaces(s, i);
    if j == i then (NoVerb, NO_OP)
    else if HasAt(s, j, BEFORE) then LexAnchor(s, j + |BEFORE|)
    else if HasAt(s, j, AFTER) then LexAnchor(s, j + |AFTER|)
    else if HasAt(s, j, HEAD) && EndsAfter(s, j + |HEAD|, true) then (Insert, NO_OP)
    else if HasAt(s, j, TAIL) && EndsAfter(s, j + |TAIL|, true) then (Insert, NO_OP)
    else (NoVerb, NO_OP)
  }

  function LexAnchor(s: string, i: nat): (Verb, Op<string>)
    requires i <= |s|
  {
    var a := Spaces(s, i);
    var aEnd := Digits(s, a);
    if a > i && IsNumeral(s, a, aEnd) && EndsAfter(s, aEnd, true) then
      (Insert, Op([s[a..aEnd]], [DigitsValue(s[a..aEnd])], 0))
    else (NoVerb, NO_OP)
  }

  /** Where the anchor of a sigil op starts: after white space and list markers. */
  function SigilStart(s: string): (k: nat)
    ensures k <= |s|
  {
    var i := Spaces(s, 0);
    var j := Skip(s, i, c => c == '>' || c == '+' || c == '-' || c == '*');
    if j > i then Spaces(s, j) else i
  }

  function Inlined(s: string): Option<string> {
    if s == "" then None else Some(s)
  }

  function LexSigil(s: string): (Mark, Op<string>, Option<string>) {
    var a := SigilStart(s);
    var aEnd := Digits(s, a);
    var edge := HasAt(s, a, "BOF") || HasAt(s, a, "EOF");
    var anchorEnd := if edge then a + 3 else aEnd;
    if (edge || IsNumeral(s, a, aEnd)) && anchorEnd < |s| && (s[anchorEnd] == '\U{2191}' || s[anchorEnd] == '\U{2193}') then
      (Inserting, Op([s[a..anchorEnd]], if edge then [] else [DigitsValue(s[a..aEnd])], 0), Inlined(s[anchorEnd + 1..]))
    else if !IsNumeral(s, a, aEnd) then (NoMark, NO_OP, None)
    else
      var dash := aEnd < |s| && s[aEnd] == '-';
      var b := if dash then aEnd + 1 else a;
      var bEnd := Digits(s, b);
      if !IsNumeral(s, b, bEnd) || bEnd == |s| || (s[bEnd] != ':' && s[bEnd] != '!') then (NoMark, NO_OP, None)
      else
        var first, last := DigitsValue(s[a..aEnd]), DigitsValue(s[b..bEnd]);
        var anchors := if s[a..aEnd] == s[b..bEnd] then [s[a..aEnd]] else [s[a..aEnd], s[b..bEnd]];
        (if s[bEnd] == '!' then Deleting else Replacing,
         Op(anchors, [first, last], if last >= first then last - first + 1 else 1),
         Inlined(s[bEnd + 1..]))
  }

  predicate IsHashChar(c: char) {
    'a' <= c <= 'z' || c == '*'
  }

  /** Digits and hash letters from i on: where they end, or i. */
  function LegacyAnchor(s: string, i: nat): (k: nat)
    requires i <= |s|
    ensures i <= k <= |s|
  {
    var d := Digits(s, i);
    var h := Skip(s, d, IsHashChar);
    if d > i && h > d then h else i
  }

  /** First position from i on that starts a range separator, or the end. */
  function NextDots(s: string, i: nat): (k: nat)
    requires i <= |s|
    ensures i <= k <= |s|
    decreases |s| - i
  {
    if i == |s| || HasAt(s, i, "..") then i else NextDots(s, i + 1)
  }

  /** The non-empty parts between range separators. */
  function Parts(s: string, i: nat): seq<string>
    requires i <= |s|
    decreases |s| - i
  {
    var k := NextDots(s, i);
    var part := Strip(s[i..k]);
    (if part == "" then [] else [part]) + if k + 2 <= |s| then Parts(s, k + 2) else []
  }

  function LegacyRange(body: string): Op<string> {
    var aEnd := LegacyAnchor(body, 0);
    var b := if HasAt(body, aEnd, "..") then aEnd + 2 else aEnd;
    var bEnd := LegacyAnchor(body, b);
    if aEnd == 0 then Op(Parts(body, 0), [], 1)
    else
      var start := DigitsValue(body[..Digits(body, 0)]);
      if aEnd == |body| then Op(Parts(body, 0), if start > 0 then [start, start] else [], 1)
      else if b > aEnd && bEnd > b && bEnd == |body| then
        var end := DigitsValue(body[b..Digits(body, b)]);
        Op(Parts(body, 0), if start > 0 then [start, if end > start then end else start] else [], if end >= start then end - start + 1 else 1)
      else Op(Parts(body, 0), [], 1)
  }

  function LexLegacy(s: string): (Mark, Op<string>) {
    if s == "" then (NoMark, NO_OP)
    else
      var i := Spaces(s, 1);
      var k := Skip(s, i, c => !IsSpace(c));
      var body := s[i..k];
      if k == i || Spaces(s, k) < |s| then (NoMark, NO_OP)
      else if s[0] == '\U{00AB}' || s[0] == '\U{00BB}' then
        var line := LegacyAnchor(body, 0);
        (Inserting,
         Op(if body == "BOF" || body == "EOF" then [] else [body],
            if line > 0 && line == |body| then [DigitsValue(body[..Digits(body, 0)])] else [], 0))
      else if s[0] == '\U{2254}' then (Replacing, LegacyRange(body))
      else (NoMark, NO_OP)
  }

  const BEGIN := "*** Begin Patch"
  const END := "*** End Patch"
  const ABORT := "*** Abort"

  function PrefixEnd(s: string): (k: nat)
    ensures k <= |s|
  {
    Skip(s, 0, c => c == SECTION)
  }

  function Lex(s: string): Line<string> {
    var trimmed, header, verb, sigil, legacy := DropSpaces(s), HeaderTarget(s), LexVerb(s), LexSigil(s), LexLegacy(s);
    Line(
      s,
      trimmed == BEGIN, trimmed == END || trimmed == ABORT,
      header.Some?, header.None? && s != "" && s[0] == SECTION,
      if header.Some? then header.value else Strip(s[PrefixEnd(s)..]),
      verb.0, verb.1, sigil.0, sigil.1, sigil.2, legacy.0, legacy.1,
      s != "" && s[0] == '+', if s == "" then "" else s[1..])
  }
}
