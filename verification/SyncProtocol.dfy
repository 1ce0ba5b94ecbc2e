/** Deciding what to do with a log file, reading it and storing the outcome. */
module SyncSteps {
  import opened Wrappers
  import opened LogLines
  import opened SessionRows

  /** What the session table remembers of the last sync of a file. */
  datatype SyncState = SyncState(mtime: int, size: nat, offset: nat, lines: nat, version: nat)

  datatype Decision = Skip | Work(rebuild: bool, offset: nat, lines: nat)

  function Decide(prev: Option<SyncState>, size: nat, mtime: int, full: bool, version: nat): Decision {
    if full || prev.None? then Work(true, 0, 0)
    else
      var p := prev.value;
      if p.version < version then Work(true, 0, 0)
      else if size == p.size && mtime <= p.mtime then Skip
      else if size < p.offset then Work(true, 0, 0)
      else if size == p.offset && mtime > p.mtime then Work(true, 0, 0)
      else Work(false, p.offset, p.lines)
  }

  /** The outcome of reading a file from an offset. */
  datatype Parsed = Parsed(rebuild: bool, records: Records, mtime: int, size: nat, offset: nat, lines: nat)

  function Parse(reader: Reader, version: nat, content: Bytes, mtime: int, size: nat, rebuild: bool, offset: nat, lines: nat): Parsed {
    var later := LinesFrom(content, offset);
    Parsed(rebuild, Extract(reader, version, later, lines), mtime, size,
           if offset < |content| then |content| else offset, lines + |later|)
  }

  function Stored(rows: Rows, p: Parsed, version: nat): Rows {
    Store(if p.rebuild then NO_ROWS else rows, p.records, version)
  }

  function StateOf(p: Parsed, version: nat): SyncState {
    SyncState(p.mtime, p.size, p.offset, p.lines, version)
  }

  /** The first line's rows, then those of the lines after it. */
  lemma ReadOneLine(reader: Reader, version: nat, content: Bytes, offset: nat, seqNo: nat)
    requires offset < |content|
    ensures |LinesFrom(content, offset)| == 1 + |LinesFrom(content, LineEnd(content, offset))|
    ensures
      var next := LineEnd(content, offset);
      Extract(reader, version, LinesFrom(content, offset), seqNo) ==
      reader(version, content[offset..next], seqNo).Then(Extract(reader, version, LinesFrom(content, next), seqNo + 1))
  {
    var next := LineEnd(content, offset);
    var raw := content[offset..next];
    var one: seq<Bytes> := [raw];
    assert Extract(reader, version, one, seqNo) == reader(version, raw, seqNo) by {
      assert one[..0] == [];
      NothingFirst(reader(version, raw, seqNo));
    }
    ExtractAppend(reader, version, one, LinesFrom(content, next), seqNo);
  }

  lemma NothingFirst(r: Records)
    ensures NO_RECORDS.Then(r) == r
  {
  }

  /** Reads line by line, moving the offset past each line and counting it. */
  method ParseFile(reader: Reader, version: nat, content: Bytes, mtime: int, size: nat, rebuild: bool, start: nat, startSeq: nat)
    returns (p: Parsed)
    ensures p == Parse(reader, version, content, mtime, size, rebuild, start, startSeq)
  {
    var offset: nat, seqNo: nat, records := start, startSeq, NO_RECORDS;
    ghost var goal := Extract(reader, version, LinesFrom(content, start), startSeq);
    ghost var total := startSeq + |LinesFrom(content, start)|;
    assert records.Then(goal) == goal by { NothingFirst(goal); }
    while offset < |content|
      invariant if start < |content| then offset <= |content| else offset == start
      invariant seqNo + |LinesFrom(content, offset)| == total
      invariant records.Then(Extract(reader, version, LinesFrom(content, offset), seqNo)) == goal
      decreases |content| - offset
    {
      var next := LineEnd(content, offset);
      var here := reader(version, content[offset..next], seqNo);
      ReadOneLine(reader, version, content, offset, seqNo);
      ghost var later := Extract(reader, version, LinesFrom(content, next), seqNo + 1);
      assert records.Then(here).Then(later) == goal by { ThenAssociative(records, here, later); }
      records, offset, seqNo := records.Then(here), next, seqNo + 1;
    }
    assert records == goal by { ThenAssociative(records, NO_RECORDS, NO_RECORDS); }
    assert seqNo == total;
    p := Parsed(rebuild, records, mtime, size, offset, seqNo);
  }

  type Table<K(==), V> = map<(string, K), V>

  /** The rows of one file in a table shared by all files. */
  function Of<K(==), V>(t: Table<K, V>, file: string): map<K, V> {
    map p | p in t && p.0 == file :: p.1 := t[p]
  }

  ghost predicate OthersKept<K, V>(t: Table<K, V>, t': Table<K, V>, file: string) {
    forall g: string | g != file :: Of(t', g) == Of(t, g)
  }

  lemma SetRow<K, V>(t: Table<K, V>, file: string, k: K, v: V)
    ensures Of(t[(file, k) := v], file) == Of(t, file)[k := v]
    ensures OthersKept(t, t[(file, k) := v], file)
  {
    var t' := t[(file, k) := v];
    assert (file, k) in t';
    forall j | j in Of(t, file)[k := v]
      ensures j in Of(t', file)
    {
      assert (file, j) in t';
    }
    forall g: string | g != file
      ensures Of(t', g) == Of(t, g)
    {
      assert forall j: K :: (g, j) in t' <==> (g, j) in t;
    }
  }

  method DeleteRows<K(==), V>(t: Table<K, V>, file: string) returns (t': Table<K, V>)
    ensures Of(t', file) == map[] && OthersKept(t, t', file)
  {
    t' := map p | p in t && p.0 != file :: t[p];
    forall g: string | g != file
      ensures Of(t', g) == Of(t, g)
    {
      assert forall j: K :: (g, j) in t' <==> (g, j) in t;
    }
  }

  /** Runs the insert-or-replace statement for each row in turn. */
  method PutRows<K(==), V>(t: Table<K, V>, file: string, rows: seq<(K, V)>) returns (t': Table<K, V>)
    ensures Of(t', file) == Put(Of(t, file), rows) && OthersKept(t, t', file)
  {
    t' := t;
    for i := 0 to |rows|
      invariant Of(t', file) == Put(Of(t, file), rows[..i]) && OthersKept(t, t', file)
    {
      SetRow(t', file, rows[i].0, rows[i].1);
      t' := t'[(file, rows[i].0) := rows[i].1];
      assert rows[..i + 1][..i] == rows[..i];
    }
    assert rows[..|rows|] == rows;
  }

  lemma LookUp<K, V>(t: Table<K, V>, file: string, k: K)
    ensures k in Of(t, file) <==> (file, k) in t
    ensures (file, k) in t ==> Of(t, file)[k] == t[(file, k)]
  {
    if (file, k) in t {
      assert (file, k).0 == file;
    }
  }

  method PutCallRows(t: Table<string, EditRow>, file: string, rows: seq<(string, CallColumns)>, version: nat)
    returns (t': Table<string, EditRow>)
    ensures Of(t', file) == PutCalls(Of(t, file), rows, version) && OthersKept(t, t', file)
  {
    t' := t;
    for i := 0 to |rows|
      invariant Of(t', file) == PutCalls(Of(t, file), rows[..i], version) && OthersKept(t, t', file)
    {
      var (id, c) := rows[i];
      LookUp(t', file, id);
      var row := if (file, id) in t' then t'[(file, id)].(call := c, version := version) else EditRow(c, NO_RESULT, version);
      SetRow(t', file, id, row);
      t' := t'[(file, id) := row];
      assert rows[..i + 1][..i] == rows[..i];
    }
    assert rows[..|rows|] == rows;
  }

  method PutResultRows(t: Table<string, EditRow>, file: string, rows: seq<(string, ResultColumns)>, version: nat)
    returns (t': Table<string, EditRow>)
    ensures Of(t', file) == PutResults(Of(t, file), rows, version) && OthersKept(t, t', file)
  {
    t' := t;
    for i := 0 to |rows|
      invariant Of(t', file) == PutResults(Of(t, file), rows[..i], version) && OthersKept(t, t', file)
    {
      var (id, r) := rows[i];
      LookUp(t', file, id);
      var row := if (file, id) in t' then t'[(file, id)].(result := r, version := version) else EditRow(NO_CALL, r, version);
      SetRow(t', file, id, row);
      t' := t'[(file, id) := row];
      assert rows[..i + 1][..i] == rows[..i];
    }
    assert rows[..|rows|] == rows;
  }

  /** Six row tables shared by all files. */
  datatype Tables = Tables(
    toolCalls: Table<(string, nat), Bytes>,
    toolResults: Table<(string, nat), Bytes>,
    assistant: Table<nat, Bytes>,
    user: Table<nat, Bytes>,
    editCalls: Table<string, EditRow>,
    editSections: Table<(string, nat), (nat, Bytes)>)

  function FileRows(t: Tables, file: string): Rows {
    Rows(Of(t.toolCalls, file), Of(t.toolResults, file), Of(t.assistant, file), Of(t.user, file),
         Of(t.editCalls, file), Of(t.editSections, file))
  }

  method DeleteFile(t: Tables, file: string) returns (t': Tables)
    ensures FileRows(t', file) == NO_ROWS
    ensures forall g | g != file :: FileRows(t', g) == FileRows(t, g)
  {
    var calls := DeleteRows(t.toolCalls, file);
    var results := DeleteRows(t.toolResults, file);
    var messages := DeleteRows(t.assistant, file);
    var users := DeleteRows(t.user, file);
    var edits := DeleteRows(t.editCalls, file);
    var sections := DeleteRows(t.editSections, file);
    t' := Tables(calls, results, messages, users, edits, sections);
  }

  method StoreRecords(t: Tables, file: string, r: Records, version: nat) returns (t': Tables)
    ensures FileRows(t', file) == Store(FileRows(t, file), r, version)
    ensures forall g | g != file :: FileRows(t', g) == FileRows(t, g)
  {
    var calls := PutRows(t.toolCalls, file, r.toolCalls);
    var results := PutRows(t.toolResults, file, r.toolResults);
    var messages := PutRows(t.assistant, file, r.assistant);
    var users := PutRows(t.user, file, r.user);
    var edits := PutCallRows(t.editCalls, file, r.editCalls, version);
    edits := PutResultRows(edits, file, r.editResults, version);
    var sections := PutRows(t.editSections, file, r.editSections);
    t' := Tables(calls, results, messages, users, edits, sections);
  }

  /** The database: the row tables, and one session row per file. */
  class Database {
    var tables: Tables
    var sessions: map<string, SyncState>

    constructor ()
      ensures sessions == map[] && forall f :: RowsOf(f) == NO_ROWS
    {
      tables, sessions := Tables(map[], map[], map[], map[], map[], map[]), map[];
    }

    function RowsOf(file: string): Rows
      reads this
    {
      FileRows(tables, file)
    }

    /** One transaction: all of it takes effect, or, when the commit fails, none of it. */
    method WriteRecords(file: string, p: Parsed, version: nat, commits: bool)
      modifies this
      ensures !commits ==> tables == old(tables) && sessions == old(sessions)
      ensures commits ==> RowsOf(file) == Stored(old(RowsOf(file)), p, version)
      ensures commits ==> forall g | g != file :: RowsOf(g) == old(RowsOf(g))
      ensures commits ==> sessions == old(sessions)[file := StateOf(p, version)]
    {
      var before, sessionsBefore := tables, sessions;
      if p.rebuild {
        tables := DeleteFile(tables, file);
      }
      tables := StoreRecords(tables, file, p.records, version);
      sessions := sessions[file := StateOf(p, version)];
      if !commits {
        tables, sessions := before, sessionsBefore;
      }
    }

    /** Decides, reads and writes one file whose content does not change meanwhile. */
    method SyncFile(reader: Reader, file: string, content: Bytes, mtime: int, full: bool, version: nat)
      modifies this
      ensures forall g | g != file :: RowsOf(g) == old(RowsOf(g))
      ensures
        var prev := old(if file in sessions then Some(sessions[file]) else None);
        match Decide(prev, |content|, mtime, full, version)
        case Skip => RowsOf(file) == old(RowsOf(file)) && sessions == old(sessions)
        case Work(rebuild, offset, lines) =>
          var p := Parse(reader, version, content, mtime, |content|, rebuild, offset, lines);
          RowsOf(file) == Stored(old(RowsOf(file)), p, version) && sessions == old(sessions)[file := StateOf(p, version)]
    {
      var prev := if file in sessions then Some(sessions[file]) else None;
      var d := Decide(prev, |content|, mtime, full, version);
      if d.Work? {
        var p := ParseFile(reader, version, content, mtime, |content|, d.rebuild, d.offset, d.lines);
        WriteRecords(file, p, version, true);
      }
    }
  }
}

/** The cache and its source over whole runs: writers append while a sync is between its steps. */
module SyncRuns {
  import opened Wrappers
  import opened LogLines
  import opened SessionRows
  import opened SyncSteps

  /** Where a sync of the file stands. */
  datatype Pending =
    | Idle
    | Decided(rebuild: bool, offset: nat, lines: nat)
    | Statted(rebuild: bool, offset: nat, lines: nat, size: nat, mtime: int)
    | ReadIn(parsed: Parsed, seen: Bytes)

  /** One file, its rows and session row, and, as a history variable, the content the rows were built from. */
  datatype System = System(
    content: Bytes, mtime: int, version: nat, rows: Rows, state: Option<SyncState>, pending: Pending, synced: Bytes)

  datatype Step =
    | Append(more: Bytes, time: int)
    | Rewrite(text: Bytes, time: int)
    | Upgrade(version: nat)
    | Choose(full: bool)
    | Stat
    | Read
    | Commit
    | Rollback

  /** The size or the time of the file makes the sync start over. */
  predicate Noticed(s: System, full: bool) {
    var d := Decide(s.state, |s.content|, s.mtime, full, s.version);
    d.Work? && d.rebuild
  }

  /** Files are written in whole lines, and rewritten or the tool upgraded only between syncs. */
  predicate Enabled(s: System, a: Step) {
    match a
    case Append(more, _) => WholeLines(more)
    case Rewrite(text, _) => s.pending.Idle? && WholeLines(text)
    case Upgrade(version) => s.pending.Idle? && version >= s.version
    case Choose(full) => s.pending.Idle? && (s.synced <= s.content || Noticed(s, full))
    case Stat => s.pending.Decided?
    case Read => s.pending.Statted?
    case Commit => s.pending.ReadIn?
    case Rollback => !s.pending.Idle?
  }

  function Next(reader: Reader, s: System, a: Step): System
    requires Enabled(s, a)
  {
    match a
    case Append(more, time) => s.(content := s.content + more, mtime := time)
    case Rewrite(text, time) => s.(content := text, mtime := time)
    case Upgrade(version) => s.(version := version)
    case Choose(full) =>
      (match Decide(s.state, |s.content|, s.mtime, full, s.version)
       case Skip => s
       case Work(rebuild, offset, lines) => s.(pending := Decided(rebuild, offset, lines)))
    case Stat =>
      s.(pending := Statted(s.pending.rebuild, s.pending.offset, s.pending.lines, |s.content|, s.mtime))
    case Read =>
      var p := s.pending;
      s.(pending := ReadIn(Parse(reader, s.version, s.content, p.mtime, p.size, p.rebuild, p.offset, p.lines), s.content))
    case Commit =>
      s.(rows := Stored(s.rows, s.pending.parsed, s.version),
         state := Some(StateOf(s.pending.parsed, s.version)),
         pending := Idle,
         synced := s.pending.seen)
    case Rollback => s.(pending := Idle)
  }

  predicate Initial(s: System) {
    WholeLines(s.content) && s.rows == NO_ROWS && s.state.None? && s.pending.Idle? && s.synced == []
  }

  /** The rows are those of a full rebuild of the synced content, and the session row measures it. */
  ghost predicate CacheMatches(reader: Reader, s: System) {
    if s.state.None? then s.rows == NO_ROWS && s.synced == []
    else
      var st := s.state.value;
      && s.rows == Rebuild(reader, st.version, s.synced)
      && st.offset == |s.synced| && st.lines == |Lines(s.synced)|
      && st.size <= st.offset && st.version <= s.version
  }

  /** A pending resume starts where the synced content ends, with the tool's version unchanged. */
  predicate Resumes(s: System, rebuild: bool, offset: nat, lines: nat) {
    if rebuild then offset == 0 && lines == 0
    else
      && s.state.Some? && s.state.value.version == s.version && s.synced <= s.content
      && offset == |s.synced| && lines == |Lines(s.synced)|
  }

  ghost predicate PendingMatches(reader: Reader, s: System) {
    match s.pending
    case Idle => true
    case Decided(rebuild, offset, lines) => Resumes(s, rebuild, offset, lines)
    case Statted(rebuild, offset, lines, size, _) => Resumes(s, rebuild, offset, lines) && size <= |s.content|
    case ReadIn(p, seen) =>
      && seen <= s.content && WholeLines(seen)
      && Stored(s.rows, p, s.version) == Rebuild(reader, s.version, seen)
      && p.offset == |seen| && p.lines == |Lines(seen)| && p.size <= p.offset
  }

  ghost predicate Inv(reader: Reader, s: System) {
    WholeLines(s.content) && WholeLines(s.synced) && CacheMatches(reader, s) && PendingMatches(reader, s)
  }

  /** Reading on from the end of the synced content, whatever was appended since. */
  lemma ReadMatches(reader: Reader, s: System)
    requires Inv(reader, s) && s.pending.Statted?
    ensures Inv(reader, Next(reader, s, Read))
  {
    var p := s.pending;
    if !p.rebuild {
      ResumedLines(s.synced, s.content);
      ResumeIsRebuild(reader, s.version, Lines(s.synced), LinesFrom(s.content, |s.synced|));
    }
  }

  lemma StepKeepsInv(reader: Reader, s: System, a: Step)
    requires Inv(reader, s) && Enabled(s, a)
    ensures Inv(reader, Next(reader, s, a))
  {
    match a
    case Read => ReadMatches(reader, s);
    case Append(more, _) =>
      assert s.synced <= s.content ==> s.synced <= s.content + more;
    case _ =>
  }

  ghost predicate Runs(reader: Reader, s: System, steps: seq<Step>)
    decreases |steps|
  {
    steps == [] || (Enabled(s, steps[0]) && Runs(reader, Next(reader, s, steps[0]), steps[1..]))
  }

  ghost function After(reader: Reader, s: System, steps: seq<Step>): System
    requires Runs(reader, s, steps)
    decreases |steps|
  {
    if steps == [] then s else After(reader, Next(reader, s, steps[0]), steps[1..])
  }

  lemma {:induction false} RunKeepsInv(reader: Reader, s: System, steps: seq<Step>)
    requires Inv(reader, s) && Runs(reader, s, steps)
    ensures Inv(reader, After(reader, s, steps))
    decreases |steps|
  {
    if steps != [] {
      StepKeepsInv(reader, s, steps[0]);
      RunKeepsInv(reader, Next(reader, s, steps[0]), steps[1..]);
    }
  }

  /** What the invariant says of the next commit, and of a file about to be skipped. */
  lemma InvMeansFresh(reader: Reader, s: System, full: bool)
    requires Inv(reader, s)
    ensures s.pending.ReadIn? ==>
              s.pending.seen <= s.content && Next(reader, s, Commit).rows == Rebuild(reader, s.version, s.pending.seen)
    ensures Enabled(s, Choose(full)) && Decide(s.state, |s.content|, s.mtime, full, s.version).Skip? ==>
              s.rows == Rebuild(reader, s.version, s.content)
  {
    if Enabled(s, Choose(full)) && Decide(s.state, |s.content|, s.mtime, full, s.version).Skip? {
      assert s.synced == s.content;
    }
  }

  /**
   * Over every run: a commit leaves the rows of a full rebuild of what was read, which is the
   * current content when nothing was appended since; and a file is skipped only when its rows are
   * already those of a full rebuild.
   */
  lemma CacheAgreesWithSource(reader: Reader, start: System, steps: seq<Step>, full: bool)
    requires Initial(start) && Runs(reader, start, steps)
    ensures
      var s := After(reader, start, steps);
      && (s.pending.ReadIn? ==>
            s.pending.seen <= s.content && Next(reader, s, Commit).rows == Rebuild(reader, s.version, s.pending.seen))
      && (Enabled(s, Choose(full)) && Decide(s.state, |s.content|, s.mtime, full, s.version).Skip? ==>
            s.rows == Rebuild(reader, s.version, s.content))
  {
    RunKeepsInv(reader, start, steps);
    InvMeansFresh(reader, After(reader, start, steps), full);
  }

  /** A decoder that keeps every line as it is. */
  function Verbatim(version: nat, line: Bytes): Event {
    User(Some(line))
  }

  lemma {:induction false} VerbatimRecords(version: nat, lines: seq<Bytes>)
    ensures
      var r := Extract(EventReader(Verbatim), version, lines, 0);
      |r.user| == |lines| && forall i | 0 <= i < |lines| :: r.user[i] == (i, lines[i])
    decreases |lines|
  {
    if lines != [] {
      var n := |lines| - 1;
      VerbatimRecords(version, lines[..n]);
      assert EventReader(Verbatim)(version, lines[n], n) == NO_RECORDS.(user := [(n, lines[n])]);
    }
  }

  lemma {:induction false} PutNumbered(rows: seq<(nat, Bytes)>)
    requires forall i | 0 <= i < |rows| :: rows[i].0 == i
    ensures forall k: nat :: k in Put(map[], rows) <==> k < |rows|
    ensures forall k: nat | k < |rows| :: Put(map[], rows)[k] == rows[k].1
    decreases |rows|
  {
    if rows != [] {
      PutNumbered(rows[..|rows| - 1]);
    }
  }

  /** The k-th user row of verbatim rows is the k-th line. */
  lemma VerbatimUser(version: nat, lines: seq<Bytes>)
    ensures
      var user := RebuildLines(EventReader(Verbatim), version, lines).user;
      && (forall k: nat :: k in user <==> k < |lines|)
      && forall k: nat | k < |lines| :: user[k] == lines[k]
  {
    VerbatimRecords(version, lines);
    PutNumbered(Extract(EventReader(Verbatim), version, lines, 0).user);
  }

  /** Verbatim rows determine the lines. */
  lemma VerbatimRows(version: nat, a: seq<Bytes>, b: seq<Bytes>)
    requires RebuildLines(EventReader(Verbatim), version, a) == RebuildLines(EventReader(Verbatim), version, b)
    ensures a == b
  {
    var user := RebuildLines(EventReader(Verbatim), version, a).user;
    VerbatimUser(version, a);
    VerbatimUser(version, b);
    assert |a| in user <==> |a| < |b|;
    assert |b| in user <==> |b| < |a|;
    forall i | 0 <= i < |a|
      ensures a[i] == b[i]
    {
      assert user[i] == a[i];
    }
  }

  /** What resuming after the synced bytes leaves in the tables, for any content of the file. */
  function Resumed(reader: Reader, version: nat, synced: Bytes, content: Bytes): Rows {
    Stored(Rebuild(reader, version, synced),
           Parse(reader, version, content, 0, 0, false, |synced|, |Lines(synced)|), version)
  }

  /**
   * Resuming agrees with a full rebuild, however lines are decoded, exactly when the file still
   * begins with the synced bytes and these end where a line ends, or are the whole file.
   */
  lemma ResumeAgreesExactlyAtLineEnds(version: nat, synced: Bytes, content: Bytes)
    ensures (forall decode: Decoder :: Resumed(EventReader(decode), version, synced, content) == Rebuild(EventReader(decode), version, content)) <==>
            synced <= content && (WholeLines(synced) || synced == content)
  {
    var a, b := Lines(synced), LinesFrom(content, |synced|);
    forall decode: Decoder
      ensures Resumed(EventReader(decode), version, synced, content) == RebuildLines(EventReader(decode), version, a + b)
    {
      ResumeIsRebuild(EventReader(decode), version, a, b);
    }
    ResumedLines(synced, content);
    if Resumed(EventReader(Verbatim), version, synced, content) == Rebuild(EventReader(Verbatim), version, content) {
      VerbatimRows(version, a + b, Lines(content));
    }
  }
}
