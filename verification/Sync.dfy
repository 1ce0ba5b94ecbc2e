/** Splitting a log into lines, each keeping its newline. */
module LogLines {
  type byte = b: int | 0 <= b < 256
  type Bytes = seq<byte>

  const NEWLINE: byte := 10

  /** Where the line that starts at o ends: after its newline, or at the end of the file. */
  function LineEnd(c: Bytes, o: nat): (n: nat)
    requires o < |c|
    ensures o < n <= |c|
    decreases |c| - o
  {
    if c[o] == NEWLINE || o + 1 == |c| then o + 1 else LineEnd(c, o + 1)
  }

  /** The lines from an offset on; none when the offset is past the end. */
  function LinesFrom(c: Bytes, o: nat): seq<Bytes>
    decreases |c| - o
  {
    if o >= |c| then [] else [c[o..LineEnd(c, o)]] + LinesFrom(c, LineEnd(c, o))
  }

  function Lines(c: Bytes): seq<Bytes> {
    LinesFrom(c, 0)
  }

  /** Everything up to here is whole lines. */
  predicate WholeLines(c: Bytes) {
    c == [] || c[|c| - 1] == NEWLINE
  }

  lemma {:induction false} LineEndOfAppend(a: Bytes, b: Bytes, o: nat)
    requires o < |a|
    ensures WholeLines(a) || LineEnd(a, o) < |a| || b == [] ==> LineEnd(a + b, o) == LineEnd(a, o)
    ensures !WholeLines(a) && LineEnd(a, o) == |a| && b != [] ==> LineEnd(a + b, o) == |a| + LineEnd(b, 0)
    decreases |a| - o
  {
    if o + 1 < |a| {
      if a[o] != NEWLINE { LineEndOfAppend(a, b, o + 1); }
    } else if b != [] {
      LineEndShift(a, b, 0);
    }
  }

  lemma {:induction false} LineEndShift(a: Bytes, b: Bytes, o: nat)
    requires o < |b|
    ensures LineEnd(a + b, |a| + o) == |a| + LineEnd(b, o)
    decreases |b| - o
  {
    if o + 1 < |b| && b[o] != NEWLINE {
      LineEndShift(a, b, o + 1);
    }
  }

  lemma {:induction false} LinesShift(a: Bytes, b: Bytes, o: nat)
    ensures LinesFrom(a + b, |a| + o) == LinesFrom(b, o)
    decreases |b| - o
  {
    if o < |b| {
      var c, n := a + b, LineEnd(b, o);
      LineEndShift(a, b, o);
      LinesShift(a, b, n);
      assert c[|a| + o..|a| + n] == b[o..n];
      assert LinesFrom(c, |a| + o) == [c[|a| + o..|a| + n]] + LinesFrom(c, |a| + n);
    }
  }

  lemma {:induction false} LinesOfAppend(a: Bytes, b: Bytes, o: nat)
    requires WholeLines(a) && o <= |a|
    ensures LinesFrom(a + b, o) == LinesFrom(a, o) + Lines(b)
    decreases |a| - o
  {
    if o == |a| {
      LinesShift(a, b, 0);
    } else {
      LineEndOfAppend(a, b, o);
      var n := LineEnd(a, o);
      LinesOfAppend(a, b, n);
      assert (a + b)[o..n] == a[o..n];
    }
  }

  /** The fragment at the end of a and the start of b are one line. */
  lemma {:induction false} FragmentJoins(a: Bytes, b: Bytes, o: nat)
    requires !WholeLines(a) && b != [] && o < |a|
    ensures |LinesFrom(a + b, o)| == |LinesFrom(a, o)| + |Lines(b)| - 1
    decreases |a| - o
  {
    LineEndOfAppend(a, b, o);
    var n := LineEnd(a, o);
    if n < |a| {
      FragmentJoins(a, b, n);
    } else {
      LinesShift(a, b, LineEnd(b, 0));
    }
  }

  /** What is left to read from an offset; nothing when the offset is past the end. */
  function Tail(c: Bytes, o: nat): Bytes {
    if o <= |c| then c[o..] else []
  }

  function Flatten(ls: seq<Bytes>): Bytes {
    if ls == [] then [] else ls[0] + Flatten(ls[1..])
  }

  lemma {:induction false} LinesConcatenate(c: Bytes, o: nat)
    ensures Flatten(LinesFrom(c, o)) == Tail(c, o)
    decreases |c| - o
  {
    if o < |c| {
      var n := LineEnd(c, o);
      LinesConcatenate(c, n);
      assert LinesFrom(c, o)[1..] == LinesFrom(c, n);
    }
  }

  lemma {:induction false} FlattenAppend(a: seq<Bytes>, b: seq<Bytes>)
    ensures Flatten(a + b) == Flatten(a) + Flatten(b)
  {
    if a == [] {
      assert a + b == b;
    } else {
      assert (a + b)[1..] == a[1..] + b;
      FlattenAppend(a[1..], b);
    }
  }

  /**
   * Resuming after synced bytes reads the lines of the whole file exactly when the synced bytes are
   * still its beginning and end where a line ends, or are the whole file.
   */
  lemma ResumedLines(synced: Bytes, content: Bytes)
    ensures Lines(synced) + LinesFrom(content, |synced|) == Lines(content) <==>
            synced <= content && (WholeLines(synced) || synced == content)
  {
    var tail := Tail(content, |synced|);
    if synced <= content {
      assert content == synced + tail;
      LinesShift(synced, tail, 0);
      if WholeLines(synced) { LinesOfAppend(synced, tail, 0); }
      else if tail != [] { FragmentJoins(synced, tail, 0); }
    }
    if Lines(synced) + LinesFrom(content, |synced|) == Lines(content) {
      LinesConcatenate(synced, 0);
      LinesConcatenate(content, |synced|);
      LinesConcatenate(content, 0);
      FlattenAppend(Lines(synced), LinesFrom(content, |synced|));
      assert content == synced + tail;
    }
  }
}

/** The rows a session log gives rise to, and the upserts that store them. */
module SessionRows {
  import opened Wrappers
  import opened LogLines

  /** A section of an edit call, a call, a message: the columns a theorem never looks into are bytes. */
  datatype EditInput = EditInput(timestamp: int, inputLength: nat, sections: seq<Bytes>)

  datatype ToolCall = ToolCall(callId: string, row: Bytes, edit: Option<EditInput>)

  /** What a decoded line says; a blank or undecodable line, or one of another kind, says nothing. */
  datatype Event =
    | Nothing
    | Assistant(calls: seq<ToolCall>, message: Option<Bytes>)
    | ToolResult(callId: string, row: Bytes, edit: Option<ResultColumns>)
    | User(message: Option<Bytes>)

  datatype CallColumns = CallColumns(seqNo: nat, timestamp: int, inputLength: nat)
  datatype ResultColumns = ResultColumns(success: Option<bool>, warnings: seq<string>)

  /** A row of the edit-call table: the columns the call fills and those its result fills. */
  datatype EditRow = EditRow(call: CallColumns, result: ResultColumns, version: nat)

  const NO_CALL := CallColumns(0, 0, 0)
  const NO_RESULT := ResultColumns(None, [])

  /** Rows collected from a file, table by table, in the order they were met. */
  datatype Records = Records(
    toolCalls: seq<((string, nat), Bytes)>,
    toolResults: seq<((string, nat), Bytes)>,
    assistant: seq<(nat, Bytes)>,
    user: seq<(nat, Bytes)>,
    editCalls: seq<(string, CallColumns)>,
    editResults: seq<(string, ResultColumns)>,
    editSections: seq<((string, nat), (nat, Bytes))>)
  {
    function Then(b: Records): Records {
      Records(toolCalls + b.toolCalls, toolResults + b.toolResults, assistant + b.assistant, user + b.user,
              editCalls + b.editCalls, editResults + b.editResults, editSections + b.editSections)
    }
  }

  const NO_RECORDS := Records([], [], [], [], [], [], [])

  type Decoder = (nat, Bytes) -> Event

  function CallRecords(calls: seq<ToolCall>, seqNo: nat): Records {
    if calls == [] then NO_RECORDS
    else
      var c := calls[0];
      var one := match c.edit
        case None => NO_RECORDS.(toolCalls := [((c.callId, seqNo), c.row)])
        case Some(e) =>
          NO_RECORDS.(
            toolCalls := [((c.callId, seqNo), c.row)],
            editCalls := [(c.callId, CallColumns(seqNo, e.timestamp, e.inputLength))],
            editSections := seq(|e.sections|, i requires 0 <= i < |e.sections| => ((c.callId, i), (seqNo, e.sections[i]))));
      one.Then(CallRecords(calls[1..], seqNo))
  }

  /** The rows of one line, which carry its number. */
  function LineRecords(e: Event, seqNo: nat): Records {
    match e
    case Nothing => NO_RECORDS
    case Assistant(calls, message) =>
      var r := CallRecords(calls, seqNo);
      if message.Some? then r.(assistant := r.assistant + [(seqNo, message.value)]) else r
    case ToolResult(id, row, edit) =>
      NO_RECORDS.(
        toolResults := [((id, seqNo), row)],
        editResults := if edit.Some? then [(id, edit.value)] else [])
    case User(message) =>
      if message.Some? then NO_RECORDS.(user := [(seqNo, message.value)]) else NO_RECORDS
  }

  /** How a line at a given number becomes rows, for a given version of the tool. */
  type Reader = (nat, Bytes, nat) -> Records

  /** Decode the line, then take the rows of what it says. */
  function EventReader(decode: Decoder): Reader {
    (version: nat, line: Bytes, seqNo: nat) => LineRecords(decode(version, line), seqNo)
  }

  function Extract(reader: Reader, version: nat, lines: seq<Bytes>, seqNo: nat): Records {
    if lines == [] then NO_RECORDS
    else
      Extract(reader, version, lines[..|lines| - 1], seqNo)
        .Then(reader(version, lines[|lines| - 1], seqNo + |lines| - 1))
  }

  lemma ThenAssociative(a: Records, b: Records, c: Records)
    ensures a.Then(b).Then(c) == a.Then(b.Then(c))
    ensures a.Then(NO_RECORDS) == a
  {
    assert forall x: seq<((string, nat), Bytes)>, y, z {:trigger x + y + z} :: (x + y) + z == x + (y + z);
  }

  lemma {:induction false} ExtractAppend(reader: Reader, version: nat, a: seq<Bytes>, b: seq<Bytes>, seqNo: nat)
    ensures Extract(reader, version, a + b, seqNo) ==
            Extract(reader, version, a, seqNo).Then(Extract(reader, version, b, seqNo + |a|))
    decreases |b|
  {
    if b == [] {
      assert a + b == a;
      ThenAssociative(Extract(reader, version, a, seqNo), NO_RECORDS, NO_RECORDS);
    } else {
      var init, last := b[..|b| - 1], b[|b| - 1];
      ExtractAppend(reader, version, a, init, seqNo);
      assert (a + b)[..|a + b| - 1] == a + init && (a + b)[|a + b| - 1] == last;
      var here := reader(version, last, seqNo + |a| + |b| - 1);
      ThenAssociative(Extract(reader, version, a, seqNo), Extract(reader, version, init, seqNo + |a|), here);
    }
  }

  /** The rows of one file, table by table. */
  datatype Rows = Rows(
    toolCalls: map<(string, nat), Bytes>,
    toolResults: map<(string, nat), Bytes>,
    assistant: map<nat, Bytes>,
    user: map<nat, Bytes>,
    editCalls: map<string, EditRow>,
    editSections: map<(string, nat), (nat, Bytes)>)

  const NO_ROWS := Rows(map[], map[], map[], map[], map[], map[])

  /** Insert or replace, last writer wins. */
  function Put<K(==), V>(t: map<K, V>, rows: seq<(K, V)>): map<K, V> {
    if rows == [] then t
    else
      var last := rows[|rows| - 1];
      Put(t, rows[..|rows| - 1])[last.0 := last.1]
  }

  function WithCall(t: map<string, EditRow>, id: string, c: CallColumns, version: nat): map<string, EditRow> {
    t[id := if id in t then t[id].(call := c, version := version) else EditRow(c, NO_RESULT, version)]
  }

  function WithResult(t: map<string, EditRow>, id: string, r: ResultColumns, version: nat): map<string, EditRow> {
    t[id := if id in t then t[id].(result := r, version := version) else EditRow(NO_CALL, r, version)]
  }

  /** The call columns are upserted without touching the result columns. */
  function PutCalls(t: map<string, EditRow>, rows: seq<(string, CallColumns)>, version: nat): map<string, EditRow> {
    if rows == [] then t
    else
      var last := rows[|rows| - 1];
      WithCall(PutCalls(t, rows[..|rows| - 1], version), last.0, last.1, version)
  }

  function PutResults(t: map<string, EditRow>, rows: seq<(string, ResultColumns)>, version: nat): map<string, EditRow> {
    if rows == [] then t
    else
      var last := rows[|rows| - 1];
      WithResult(PutResults(t, rows[..|rows| - 1], version), last.0, last.1, version)
  }

  function Store(rows: Rows, rec: Records, version: nat): Rows {
    Rows(
      Put(rows.toolCalls, rec.toolCalls),
      Put(rows.toolResults, rec.toolResults),
      Put(rows.assistant, rec.assistant),
      Put(rows.user, rec.user),
      PutResults(PutCalls(rows.editCalls, rec.editCalls, version), rec.editResults, version),
      Put(rows.editSections, rec.editSections))
  }

  lemma {:induction false} PutAppend<K, V>(t: map<K, V>, a: seq<(K, V)>, b: seq<(K, V)>)
    ensures Put(t, a + b) == Put(Put(t, a), b)
    decreases |b|
  {
    if b == [] {
      assert a + b == a;
    } else {
      assert (a + b)[..|a + b| - 1] == a + b[..|b| - 1];
      PutAppend(t, a, b[..|b| - 1]);
    }
  }

  lemma {:induction false} PutCallsAppend(t: map<string, EditRow>, a: seq<(string, CallColumns)>, b: seq<(string, CallColumns)>, version: nat)
    ensures PutCalls(t, a + b, version) == PutCalls(PutCalls(t, a, version), b, version)
    decreases |b|
  {
    if b == [] {
      assert a + b == a;
    } else {
      assert (a + b)[..|a + b| - 1] == a + b[..|b| - 1];
      PutCallsAppend(t, a, b[..|b| - 1], version);
    }
  }

  lemma {:induction false} PutResultsAppend(t: map<string, EditRow>, a: seq<(string, ResultColumns)>, b: seq<(string, ResultColumns)>, version: nat)
    ensures PutResults(t, a + b, version) == PutResults(PutResults(t, a, version), b, version)
    decreases |b|
  {
    if b == [] {
      assert a + b == a;
    } else {
      assert (a + b)[..|a + b| - 1] == a + b[..|b| - 1];
      PutResultsAppend(t, a, b[..|b| - 1], version);
    }
  }

  lemma WithCommute(t: map<string, EditRow>, i: string, c: CallColumns, j: string, r: ResultColumns, version: nat)
    ensures WithCall(WithResult(t, j, r, version), i, c, version) == WithResult(WithCall(t, i, c, version), j, r, version)
  {
  }

  lemma {:induction false} CallPastResults(t: map<string, EditRow>, i: string, c: CallColumns, rs: seq<(string, ResultColumns)>, version: nat)
    ensures WithCall(PutResults(t, rs, version), i, c, version) == PutResults(WithCall(t, i, c, version), rs, version)
    decreases |rs|
  {
    if rs != [] {
      var last := rs[|rs| - 1];
      WithCommute(PutResults(t, rs[..|rs| - 1], version), i, c, last.0, last.1, version);
      CallPastResults(t, i, c, rs[..|rs| - 1], version);
    }
  }

  /** A call and its result may arrive in either order, and in different batches. */
  lemma {:induction false} CallsPastResults(t: map<string, EditRow>, cs: seq<(string, CallColumns)>, rs: seq<(string, ResultColumns)>, version: nat)
    ensures PutCalls(PutResults(t, rs, version), cs, version) == PutResults(PutCalls(t, cs, version), rs, version)
    decreases |cs|
  {
    if cs != [] {
      var last := cs[|cs| - 1];
      CallsPastResults(t, cs[..|cs| - 1], rs, version);
      CallPastResults(PutCalls(t, cs[..|cs| - 1], version), last.0, last.1, rs, version);
    }
  }

  /** Storing two batches one after the other is storing them as one. */
  lemma StoreAppend(rows: Rows, a: Records, b: Records, version: nat)
    ensures Store(rows, a.Then(b), version) == Store(Store(rows, a, version), b, version)
  {
    PutAppend(rows.toolCalls, a.toolCalls, b.toolCalls);
    PutAppend(rows.toolResults, a.toolResults, b.toolResults);
    PutAppend(rows.assistant, a.assistant, b.assistant);
    PutAppend(rows.user, a.user, b.user);
    PutAppend(rows.editSections, a.editSections, b.editSections);
    var t := PutCalls(rows.editCalls, a.editCalls, version);
    PutCallsAppend(rows.editCalls, a.editCalls, b.editCalls, version);
    PutResultsAppend(PutCalls(t, b.editCalls, version), a.editResults, b.editResults, version);
    CallsPastResults(t, b.editCalls, a.editResults, version);
  }

  /** The rows a full rebuild of this content stores. */
  function RebuildLines(reader: Reader, version: nat, lines: seq<Bytes>): Rows {
    Store(NO_ROWS, Extract(reader, version, lines, 0), version)
  }

  function Rebuild(reader: Reader, version: nat, content: Bytes): Rows {
    RebuildLines(reader, version, Lines(content))
  }

  /** Adding the rest of the lines to the rows of the first ones. */
  lemma ResumeIsRebuild(reader: Reader, version: nat, a: seq<Bytes>, b: seq<Bytes>)
    ensures Store(RebuildLines(reader, version, a), Extract(reader, version, b, |a|), version) ==
            RebuildLines(reader, version, a + b)
  {
    var first, second := Extract(reader, version, a, 0), Extract(reader, version, b, |a|);
    var all := Extract(reader, version, a + b, 0);
    assert all == first.Then(second) by {
      ExtractAppend(reader, version, a, b, 0);
      assert 0 + |a| == |a|;
    }
    assert Store(NO_ROWS, all, version) == Store(Store(NO_ROWS, first, version), second, version) by {
      StoreAppend(NO_ROWS, first, second, version);
    }
  }
}
