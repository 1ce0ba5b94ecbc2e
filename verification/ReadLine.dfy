/** Reading one line of input: escapes, a delimiter and a limit on the output. */
module ReadLine {
  import opened Wrappers
  import opened FieldSplitting

  const BACKSLASH := '\\'

  datatype Event = Eof | Timeout | CtrlC | CtrlD | Char(c: char)

  /** No delimiter when so many characters are wanted whatever they are. */
  datatype Config = Config(delimiter: Option<char>, limit: Option<nat>, escapes: bool)

  datatype ReadResult = LineRead(line: string) | AtEof(partial: Option<string>) | TimedOut(partial: Option<string>) | Interrupted

  /** A control character that is not white space: left out unless it is escaped. */
  predicate Ignored(c: char) {
    (c < ' ' || c == '\U{007F}') && c != '\t' && c != '\n' && c != '\U{000C}' && c != '\r'
  }

  /** Bytes of a character as a string stores it; the limit counts these. */
  function Width(c: char): (n: nat)
    ensures 1 <= n <= 4
  {
    if c < '\U{0080}' then 1 else if c < '\U{0800}' then 2 else if c < '\U{10000}' then 3 else 4
  }

  function Bytes(s: string): (n: nat)
    ensures n >= |s|
  {
    if s == "" then 0 else Bytes(s[..|s| - 1]) + Width(s[|s| - 1])
  }

  // ----- Without a limit

  /** What ended the line: the delimiter, an event, or nothing yet. */
  datatype Stop = Delimiter | Ended(event: Event, pending: bool) | Waiting

  datatype Taken = Taken(text: string, stop: Stop)
  {
    function After(before: string): Taken {
      Taken(before + text, stop)
    }
  }

  function Take(cfg: Config, events: seq<Event>, pending: bool): Taken
    decreases |events|
  {
    if events == [] then Taken("", Waiting)
    else if !events[0].Char? then Taken("", Ended(events[0], pending))
    else
      var c, rest := events[0].c, events[1..];
      if cfg.escapes && pending then
        if cfg.delimiter == Some(c) then Take(cfg, rest, false) else Take(cfg, rest, false).After([c])
      else if cfg.escapes && c == BACKSLASH then Take(cfg, rest, true)
      else if cfg.delimiter == Some(c) then Taken("", Delimiter)
      else if Ignored(c) then Take(cfg, rest, false)
      else Take(cfg, rest, false).After([c])
  }

  function NonEmpty(s: string): Option<string> {
    if s == "" then None else Some(s)
  }

  /** What an event makes of the line; a backslash still waiting is kept by a timeout only. */
  function EndOfLine(e: Event, line: string, pending: bool): ReadResult {
    match e
    case Eof => AtEof(NonEmpty(line))
    case Timeout => TimedOut(NonEmpty(if pending then line + [BACKSLASH] else line))
    case CtrlC => Interrupted
    case CtrlD => if line == "" && !pending then AtEof(None) else LineRead(line)
    case Char(_) => LineRead(line)
  }

  function Answer(t: Taken): Option<ReadResult> {
    match t.stop
    case Waiting => None
    case Delimiter => Some(LineRead(t.text))
    case Ended(e, pending) => Some(EndOfLine(e, t.text, pending))
  }

  // ----- With a limit

  predicate Full(s: string, limit: Option<nat>) {
    limit.Some? && s != "" && Bytes(s) >= limit.value
  }

  /** How much of the text is read before it is full, when so much of it is not. */
  function FullAt(text: string, limit: Option<nat>, n: nat): (k: Option<nat>)
    requires n <= |text|
    ensures k.Some? ==> n < k.value <= |text| && Full(text[..k.value], limit)
    ensures forall i | n < i <= |text| && (k.None? || i < k.value) :: !Full(text[..i], limit)
    decreases |text| - n
  {
    if n == |text| then None
    else if Full(text[..n + 1], limit) then Some(n + 1)
    else FullAt(text, limit, n + 1)
  }

  function Limited(t: Taken, limit: Option<nat>): Option<ReadResult> {
    match FullAt(t.text, limit, 0)
    case Some(n) => Some(LineRead(t.text[..n]))
    case None => Answer(t)
  }

  function Result(cfg: Config, events: seq<Event>): Option<ReadResult> {
    Limited(Take(cfg, events, false), cfg.limit)
  }

  predicate NotFull(s: string, limit: Option<nat>) {
    forall i | 0 <= i <= |s| :: !Full(s[..i], limit)
  }

  /** The line so far, the events still to come, and the whole. */
  ghost predicate Reading(cfg: Config, line: string, events: seq<Event>, pending: bool, whole: Taken) {
    Take(cfg, events, pending).After(line) == whole && NotFull(line, cfg.limit) && (pending ==> cfg.escapes)
  }

  lemma AfterAfter(t: Taken, a: string, b: string)
    ensures t.After(b).After(a) == t.After(a + b)
  {
    assert a + (b + t.text) == a + b + t.text;
  }

  /** Nothing is full before the end of the line. */
  lemma FirstFull(line: string, rest: string, limit: Option<nat>)
    requires line != "" && NotFull(line[..|line| - 1], limit) && Full(line, limit)
    ensures FullAt(line + rest, limit, 0) == Some(|line|)
  {
    var text, init := line + rest, line[..|line| - 1];
    forall i | 0 <= i < |line|
      ensures !Full(text[..i], limit)
    {
      assert text[..i] == init[..i];
    }
    assert text[..|line|] == line;
  }

  /** The line ends here, and is not full. */
  lemma EndsHere(cfg: Config, line: string, events: seq<Event>, pending: bool, whole: Taken)
    requires Reading(cfg, line, events, pending, whole) && Take(cfg, events, pending).text == ""
    ensures FullAt(whole.text, cfg.limit, 0) == None
    ensures Limited(whole, cfg.limit) == Answer(Taken(line, Take(cfg, events, pending).stop))
  {
    assert line + "" == line;
  }

  lemma StillNotFull(line: string, c: char, limit: Option<nat>)
    requires NotFull(line, limit) && !Full(line + [c], limit)
    ensures NotFull(line + [c], limit)
  {
    forall i | 0 <= i <= |line| + 1
      ensures !Full((line + [c])[..i], limit)
    {
      if i <= |line| {
        assert (line + [c])[..i] == line[..i];
      } else {
        assert (line + [c])[..i] == line + [c];
      }
    }
  }

  /** One character more in the line: it is full now, or goes on. */
  lemma PutOne(cfg: Config, line: string, c: char, rest: seq<Event>, whole: Taken)
    requires NotFull(line, cfg.limit) && Take(cfg, rest, false).After([c]).After(line) == whole
    ensures
      var next := line + [c];
      && Take(cfg, rest, false).After(next) == whole
      && (if Full(next, cfg.limit) then Limited(whole, cfg.limit) == Some(LineRead(next))
          else Reading(cfg, next, rest, false, whole))
  {
    var next, later := line + [c], Take(cfg, rest, false);
    AfterAfter(later, line, [c]);
    if Full(next, cfg.limit) {
      assert next[..|next| - 1] == line;
      FirstFull(next, later.text, cfg.limit);
      assert whole.text == next + later.text && whole.text[..|next|] == next;
    } else {
      StillNotFull(line, c, cfg.limit);
    }
  }

  /** Reads event by event; when the limit ends the line, what comes after is untouched. */
  method ReadLineWithReader(cfg: Config, events: seq<Event>) returns (result: Option<ReadResult>, used: nat)
    ensures result == Result(cfg, events)
    ensures used <= |events|
    ensures FullAt(Take(cfg, events, false).text, cfg.limit, 0).Some? ==>
              Take(cfg, events, false) == Take(cfg, events[used..], false).After(result.value.line)
  {
    var line, pending := "", false;
    used := 0;
    ghost var whole := Take(cfg, events, false);
    assert events[0..] == events && "" + whole.text == whole.text;
    while used < |events|
      invariant used <= |events|
      invariant Reading(cfg, line, events[used..], pending, whole)
    {
      var e := events[used];
      assert events[used..][1..] == events[used + 1..];
      if !e.Char? || (cfg.delimiter == Some(e.c) && !(cfg.escapes && (pending || e.c == BACKSLASH))) {
        EndsHere(cfg, line, events[used..], pending, whole);
        used := used + 1;
        return Some(EndOfLine(e, line, pending)), used;
      }
      used := used + 1;
      if cfg.escapes && pending {
        pending := false;
        if cfg.delimiter == Some(e.c) { continue; }
      } else if cfg.escapes && e.c == BACKSLASH {
        pending := true;
        continue;
      } else if Ignored(e.c) {
        continue;
      }
      PutOne(cfg, line, e.c, events[used..], whole);
      line := line + [e.c];
      if Full(line, cfg.limit) {
        return Some(LineRead(line)), used;
      }
    }
    EndsHere(cfg, line, events[used..], pending, whole);
    result := None;
  }

  // ----- What the limit counts

  /** The limit counts characters, as documented, exactly when the ones before the last are a byte each; else it ends the line early. */
  lemma LimitCountsBytes(text: string, k: nat)
    requires 1 <= k <= |text|
    ensures
      var n := FullAt(text, Some(k), 0);
      && n.Some? && n.value <= k
      && (n.value == k <==> forall i | 0 <= i < k - 1 :: Width(text[i]) == 1)
  {
    assert Full(text[..k], Some(k));
    var n := FullAt(text, Some(k), 0).value;
    if n == k {
      if k > 1 {
        assert !Full(text[..k - 1], Some(k));
        OneByteEach(text[..k - 1]);
      }
    } else if forall i | 0 <= i < k - 1 :: Width(text[i]) == 1 {
      OneByteEach(text[..n]);
    }
  }

  lemma {:induction false} OneByteEach(s: string)
    ensures Bytes(s) == |s| <==> forall i | 0 <= i < |s| :: Width(s[i]) == 1
  {
    if s != "" {
      OneByteEach(s[..|s| - 1]);
    }
  }

  // ----- What can be written so that it is read

  /** A writer may escape any character. */
  datatype Mark = Escaped | Bare

  function Written(text: string, marks: seq<Mark>): seq<Event>
    requires |marks| == |text|
  {
    if text == "" then []
    else (if marks[0] == Escaped then [Char(BACKSLASH), Char(text[0])] else [Char(text[0])]) + Written(text[1..], marks[1..])
  }

  /** These characters can stand without an escape. */
  predicate IsSafe(c: char, d: char) {
    c != BACKSLASH && c != d && !Ignored(c)
  }

  predicate SafelyMarked(text: string, marks: seq<Mark>, d: char)
    requires |marks| == |text|
  {
    forall i | 0 <= i < |text| && marks[i] == Bare :: IsSafe(text[i], d)
  }

  function Without(text: string, d: char): string {
    if text == "" then "" else (if text[0] == d then "" else [text[0]]) + Without(text[1..], d)
  }

  /** A line with all unsafe characters escaped, and any others, reads back without its delimiters. */
  lemma {:induction false} WrittenReads(text: string, marks: seq<Mark>, d: char, more: seq<Event>)
    requires d != BACKSLASH && |marks| == |text| && SafelyMarked(text, marks, d)
    ensures Take(Config(Some(d), None, true), Written(text, marks) + ([Char(d)] + more), false) == Taken(Without(text, d), Delimiter)
  {
    var end := [Char(d)] + more;
    if text == "" {
      assert Written(text, marks) + end == end;
    } else {
      var tail := Written(text[1..], marks[1..]) + end;
      WrittenReads(text[1..], marks[1..], d, more);
      if marks[0] == Escaped {
        assert Written(text, marks) + end == [Char(BACKSLASH)] + ([Char(text[0])] + tail);
        assert ([Char(BACKSLASH)] + ([Char(text[0])] + tail))[1..] == [Char(text[0])] + tail;
      } else {
        assert Written(text, marks) + end == [Char(text[0])] + tail;
      }
      assert ([Char(text[0])] + tail)[1..] == tail;
    }
  }

  lemma {:induction false} NothingTakenOut(text: string, d: char)
    ensures |Without(text, d)| <= |text|
    ensures Without(text, d) == text <==> d !in text
  {
    if text != "" {
      NothingTakenOut(text[1..], d);
      assert text == [text[0]] + text[1..];
    }
  }

  /** Escaping what needs it, and anything else, carries a line exactly when the delimiter is not in it: an escaped delimiter is lost. */
  lemma WrittenLineReadsBack(text: string, marks: seq<Mark>, d: char, more: seq<Event>)
    requires d != BACKSLASH && |marks| == |text| && SafelyMarked(text, marks, d)
    ensures
      Result(Config(Some(d), None, true), Written(text, marks) + ([Char(d)] + more)) == Some(LineRead(text))
      <==> d !in text
  {
    WrittenReads(text, marks, d, more);
    NothingTakenOut(text, d);
  }

  function Plain(text: string): seq<Event> {
    if text == "" then [] else [Char(text[0])] + Plain(text[1..])
  }

  predicate CarriesRaw(text: string, d: char) {
    d !in text && forall i | 0 <= i < |text| :: !Ignored(text[i])
  }

  /** Without escapes a line reads back exactly when it has no delimiter and no ignored control character. */
  lemma {:induction false} RawLineReadsBack(text: string, d: char, more: seq<Event>)
    ensures
      var t := Take(Config(Some(d), None, false), Plain(text) + ([Char(d)] + more), false);
      && |t.text| <= |text| && t.stop == Delimiter
      && (t.text == text <==> CarriesRaw(text, d))
  {
    var end := [Char(d)] + more;
    if text == "" {
      assert Plain(text) + end == end;
    } else {
      var tail := Plain(text[1..]) + end;
      assert Plain(text) + end == [Char(text[0])] + tail;
      assert ([Char(text[0])] + tail)[1..] == tail;
      RawLineReadsBack(text[1..], d, more);
      assert text == [text[0]] + text[1..];
    }
  }

  /** Escapes are gone before the line is split: whichever of its characters are escaped, a line splits into the same fields. */
  lemma EscapedSeparatorsSeparate(ifs: string, text: string, marks: seq<Mark>, limit: Option<nat>)
    requires '\n' !in text && |marks| == |text| && SafelyMarked(text, marks, '\n')
    ensures
      var r := Result(Config(Some('\n'), None, true), Written(text, marks) + ([Char('\n')] + []));
      r.Some? && r.value.LineRead? && Fields(ifs, r.value.line, limit) == Fields(ifs, text, limit)
  {
    WrittenLineReadsBack(text, marks, '\n', []);
  }
}
