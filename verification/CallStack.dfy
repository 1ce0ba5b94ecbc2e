/** Positions in source text, and putting one inside another. */
module SourcePositions {
  import opened Wrappers

  /** Lines and columns count from one. */
  datatype Position = Position(index: nat, line: nat, column: nat)

  predicate IsPosition(p: Position) {
    p.line >= 1 && p.column >= 1
  }

  /** A position inside a piece of text that itself starts at a position. */
  function Compose(start: Position, p: Position): Position
    requires IsPosition(p)
  {
    Position(start.index + p.index, start.line + (p.line - 1), if p.line <= 1 then start.column + (p.column - 1) else p.column)
  }

  const ORIGIN := Position(0, 1, 1)

  /** Where the first i characters end. */
  function Advance(p: Position, c: char): Position {
    if c == '\n' then Position(p.index + 1, p.line + 1, 1) else Position(p.index + 1, p.line, p.column + 1)
  }

  function Walk(p: Position, text: string): Position
    decreases |text|
  {
    if text == "" then p else Walk(Advance(p, text[0]), text[1..])
  }

  /** The position of an offset in a text. */
  function PositionIn(text: string, offset: nat): Position
    requires offset <= |text|
  {
    Walk(ORIGIN, text[..offset])
  }

  lemma {:induction false} WalkIsPosition(p: Position, text: string)
    requires IsPosition(p)
    ensures IsPosition(Walk(p, text)) && Walk(p, text).index == p.index + |text| && Walk(p, text).line >= p.line
    decreases |text|
  {
    if text != "" {
      WalkIsPosition(Advance(p, text[0]), text[1..]);
    }
  }

  lemma {:induction false} WalkConcat(p: Position, a: string, b: string)
    ensures Walk(p, a + b) == Walk(Walk(p, a), b)
    decreases |a|
  {
    if a == "" {
      assert a + b == b;
    } else {
      assert (a + b)[1..] == a[1..] + b;
      WalkConcat(Advance(p, a[0]), a[1..], b);
    }
  }

  lemma {:induction false} WalkFrom(start: Position, p: Position, text: string)
    requires IsPosition(p)
    ensures IsPosition(Walk(p, text)) && Walk(Compose(start, p), text) == Compose(start, Walk(p, text))
    decreases |text|
  {
    if text != "" {
      WalkFrom(start, Advance(p, text[0]), text[1..]);
    }
  }

  /** The composed position is where the offset of the embedded text really is in the enclosing one. */
  lemma ComposedIsTruePosition(text: string, start: nat, offset: nat)
    requires start + offset <= |text|
    ensures
      var p := PositionIn(text[start..], offset);
      IsPosition(p) && Compose(PositionIn(text, start), p) == PositionIn(text, start + offset)
  {
    var s := PositionIn(text, start);
    var a, b := text[..start], text[start..][..offset];
    assert text[..start + offset] == a + b;
    WalkConcat(ORIGIN, a, b);
    WalkFrom(s, ORIGIN, b);
    assert Compose(s, ORIGIN) == s;
  }

  /** It does not matter which of three nested positions is put together first. */
  lemma ComposeIsAssociative(a: Position, b: Position, c: Position)
    requires IsPosition(b) && IsPosition(c)
    ensures IsPosition(Compose(b, c)) && Compose(Compose(a, b), c) == Compose(a, Compose(b, c))
  {
  }

  /** What a frame knows of where it is. */
  datatype Place = Place(start: Option<Position>, current: Option<Position>, lineOffset: nat)

  predicate IsPlace(p: Place) {
    && (p.start.Some? ==> IsPosition(p.start.value))
    && (p.current.Some? ==> IsPosition(p.current.value))
  }

  /** A position of the frame as a start for what is nested in it. */
  function AsStart(f: Place, pos: Option<Position>): (start: Option<Position>)
    requires pos.Some? ==> IsPosition(pos.value)
  {
    var composed :=
      if f.start.Some? then if pos.Some? then Some(Compose(f.start.value, pos.value)) else f.start
      else pos;
    if f.lineOffset == 0 then composed
    else if composed.Some? then Some(composed.value.(line := composed.value.line + f.lineOffset))
    else Some(Position(0, f.lineOffset + 1, 1))
  }

  function CurrentLine(f: Place): Option<nat> {
    if f.current.None? then None
    else
      var startLine := if f.start.Some? then f.start.value.line else 1;
      Some((if startLine >= 1 then startLine - 1 else 0) + f.current.value.line + f.lineOffset)
  }

  /** The line reported is the line of the composed position, whatever the line offset. */
  lemma CurrentLineAgrees(f: Place)
    requires IsPlace(f)
    ensures CurrentLine(f) == if f.current.None? then None else Some(AsStart(f, f.current).value.line)
  {
  }

  /** Nesting a frame at the current position of another composes their positions, and adds up their line offsets. */
  lemma NestedComposes(outer: Place, inner: Place)
    requires IsPlace(outer) && IsPlace(inner) && outer.current.Some? && inner.current.Some?
    requires inner.start == AsStart(outer, outer.current)
    ensures
      && IsPosition(Compose(outer.current.value, inner.current.value))
      && var both := Compose(outer.current.value, inner.current.value);
         var all := if outer.start.Some? then Compose(outer.start.value, both) else both;
         AsStart(inner, inner.current) == Some(all.(line := all.line + outer.lineOffset + inner.lineOffset))
  {
    if outer.start.Some? {
      ComposeIsAssociative(outer.start.value, outer.current.value, inner.current.value);
    }
  }
}

/** The call stack and what it counts. */
module CallStacks {
  import opened Wrappers
  import opened SourcePositions

  datatype FrameType = Sourced | Ran | Function | TrapHandler(signal: nat) | Eval | CommandString | InteractiveSession

  datatype Frame = Frame(kind: FrameType, place: Place)

  /** The frames, the most recent first, and what is counted of them. */
  datatype Stack = Stack(frames: seq<Frame>, functionDepth: nat, sourceDepth: nat, active: set<nat>)

  const EMPTY := Stack([], 0, 0, {})

  function Push(s: Stack, f: Frame): Stack {
    Stack([f] + s.frames,
          if f.kind.Function? then s.functionDepth + 1 else s.functionDepth,
          if f.kind.Sourced? then s.sourceDepth + 1 else s.sourceDepth,
          if f.kind.TrapHandler? then s.active + {f.kind.signal} else s.active)
  }

  function Less(n: nat): nat {
    if n == 0 then 0 else n - 1
  }

  function Pop(s: Stack): Stack {
    if s.frames == [] then s
    else
      var f := s.frames[0];
      Stack(s.frames[1..],
            if f.kind.Function? then Less(s.functionDepth) else s.functionDepth,
            if f.kind.Sourced? then Less(s.sourceDepth) else s.sourceDepth,
            if f.kind.TrapHandler? then s.active - {f.kind.signal} else s.active)
  }

  /** The top frame moves; nothing else does. */
  function SetTop(s: Stack, place: Place): Stack {
    if s.frames == [] then s else s.(frames := [s.frames[0].(place := place)] + s.frames[1..])
  }

  /** Where the top frame stands. */
  function TopPlace(s: Stack): Place {
    if s.frames == [] then Place(None, None, 0) else s.frames[0].place
  }

  class CallStack {
    var frames: seq<Frame>
    var functionDepth: nat
    var sourceDepth: nat
    var active: set<nat>
    /** All that has happened to the stack. */
    ghost var history: seq<Event>

    function State(): Stack
      reads this
    {
      Stack(frames, functionDepth, sourceDepth, active)
    }

    /** The stack is what its history made of the empty one. */
    ghost predicate Valid()
      reads this
    {
      State() == Run(EMPTY, history)
    }

    constructor ()
      ensures Valid() && State() == EMPTY && history == []
    {
      frames, functionDepth, sourceDepth, active, history := [], 0, 0, {}, [];
    }

    method PushFrame(kind: FrameType, place: Place)
      requires Valid()
      modifies this
      ensures Valid() && history == old(history) + [Pushed(Frame(kind, place))]
      ensures State() == Apply(old(State()), Pushed(Frame(kind, place)))
    {
      RunSnoc(EMPTY, history, Pushed(Frame(kind, place)));
      history := history + [Pushed(Frame(kind, place))];
      frames := [Frame(kind, place)] + frames;
      if kind.Function? {
        functionDepth := functionDepth + 1;
      } else if kind.Sourced? {
        sourceDepth := sourceDepth + 1;
      } else if kind.TrapHandler? {
        active := active + {kind.signal};
      }
    }

    method PopFrame() returns (f: Option<Frame>)
      requires Valid()
      modifies this
      ensures Valid() && history == old(history) + [Popped]
      ensures State() == Apply(old(State()), Popped)
      ensures f == if old(frames) == [] then None else Some(old(frames)[0])
    {
      RunSnoc(EMPTY, history, Popped);
      history := history + [Popped];
      if frames == [] {
        return None;
      }
      f := Some(frames[0]);
      frames := frames[1..];
      if f.value.kind.Function? {
        functionDepth := if functionDepth > 0 then functionDepth - 1 else 0;
      }
      if f.value.kind.Sourced? {
        sourceDepth := if sourceDepth > 0 then sourceDepth - 1 else 0;
      }
      if f.value.kind.TrapHandler? {
        active := active - {f.value.kind.signal};
      }
    }

    method SetCurrentPosition(pos: Option<Position>)
      requires Valid()
      modifies this
      ensures Valid() && history == old(history) + [Moved(TopPlace(old(State())).(current := pos))]
      ensures State() == Apply(old(State()), Moved(TopPlace(old(State())).(current := pos)))
    {
      ghost var e := Moved(TopPlace(State()).(current := pos));
      RunSnoc(EMPTY, history, e);
      history := history + [e];
      if frames != [] {
        frames := [frames[0].(place := frames[0].place.(current := pos))] + frames[1..];
      }
    }

    method IncrementLineOffset(delta: nat)
      requires Valid()
      modifies this
      ensures
        var top := TopPlace(old(State()));
        var e := Moved(top.(lineOffset := top.lineOffset + delta));
        Valid() && history == old(history) + [e] && State() == Apply(old(State()), e)
    {
      ghost var e := Moved(TopPlace(State()).(lineOffset := TopPlace(State()).lineOffset + delta));
      RunSnoc(EMPTY, history, e);
      history := history + [e];
      if frames != [] {
        frames := [frames[0].(place := frames[0].place.(lineOffset := frames[0].place.lineOffset + delta))] + frames[1..];
      }
    }

    method ClearActiveSignals()
      requires Valid()
      modifies this
      ensures Valid() && history == old(history) + [Cleared]
      ensures State() == Apply(old(State()), Cleared)
    {
      RunSnoc(EMPTY, history, Cleared);
      history := history + [Cleared];
      active := {};
    }

    /** Looks for a function among the frames; the counter knows it without looking. */
    method IsInFunction() returns (found: bool)
      requires Valid()
      ensures found <==> functionDepth > 0
    {
      InFunctionIsCounted(history);
      for i := 0 to |frames|
        invariant forall j | 0 <= j < i :: !frames[j].kind.Function?
      {
        if frames[i].kind.Function? {
          return true;
        }
      }
      return false;
    }
  }

  // ----- Runs

  datatype Event = Pushed(frame: Frame) | Popped | Moved(place: Place) | Cleared

  function Apply(s: Stack, e: Event): Stack {
    match e
    case Pushed(frame) => Push(s, frame)
    case Popped => Pop(s)
    case Moved(place) => SetTop(s, place)
    case Cleared => s.(active := {})
  }

  function Run(s: Stack, events: seq<Event>): Stack
    decreases |events|
  {
    if events == [] then s else Run(Apply(s, events[0]), events[1..])
  }

  lemma RunSnoc(s: Stack, events: seq<Event>, e: Event)
    ensures Run(s, events + [e]) == Apply(Run(s, events), e)
  {
    RunConcat(s, events, [e]);
    assert [e][1..] == [];
  }

  function CountFunctions(frames: seq<Frame>): nat {
    if frames == [] then 0 else (if frames[0].kind.Function? then 1 else 0) + CountFunctions(frames[1..])
  }

  function CountSourced(frames: seq<Frame>): nat {
    if frames == [] then 0 else (if frames[0].kind.Sourced? then 1 else 0) + CountSourced(frames[1..])
  }

  ghost predicate Counted(s: Stack) {
    s.functionDepth == CountFunctions(s.frames) && s.sourceDepth == CountSourced(s.frames)
  }

  /** Every run from the empty stack keeps the counters equal to the frames there are, so nothing ever saturates. */
  lemma {:induction false} RunsAreCounted(s: Stack, events: seq<Event>)
    requires Counted(s)
    ensures Counted(Run(s, events))
    decreases |events|
  {
    if events != [] {
      var next := Apply(s, events[0]);
      assert Counted(next) by {
        if events[0].Pushed? {
          assert next.frames[1..] == s.frames;
        } else if events[0].Moved? && s.frames != [] {
          assert next.frames[1..] == s.frames[1..];
        }
      }
      RunsAreCounted(next, events[1..]);
    }
  }

  predicate InFunction(s: Stack) {
    exists i :: 0 <= i < |s.frames| && s.frames[i].kind.Function?
  }

  lemma {:induction false} CountsWhatIsThere(frames: seq<Frame>)
    ensures CountFunctions(frames) > 0 <==> exists i :: 0 <= i < |frames| && frames[i].kind.Function?
  {
    if frames != [] {
      CountsWhatIsThere(frames[1..]);
      assert forall i | 1 <= i < |frames| :: frames[i] == frames[1..][i - 1];
      assert forall i | 0 <= i < |frames| - 1 :: frames[1..][i] == frames[i + 1];
    }
  }

  /** After any run the shell is in a function exactly when the function counter is positive. */
  lemma InFunctionIsCounted(events: seq<Event>)
    ensures InFunction(Run(EMPTY, events)) <==> Run(EMPTY, events).functionDepth > 0
  {
    RunsAreCounted(EMPTY, events);
    CountsWhatIsThere(Run(EMPTY, events).frames);
  }

  function Signals(frames: seq<Frame>): set<nat> {
    if frames == [] then {} else (if frames[0].kind.TrapHandler? then {frames[0].kind.signal} else {}) + Signals(frames[1..])
  }

  /** No two frames handle the same signal. */
  predicate OneEach(frames: seq<Frame>) {
    frames != [] ==>
      && (frames[0].kind.TrapHandler? ==> frames[0].kind.signal !in Signals(frames[1..]))
      && OneEach(frames[1..])
  }

  /** The set of active signals is never cleared, and no active signal is pushed again. */
  predicate Disciplined(s: Stack, events: seq<Event>)
    decreases |events|
  {
    events != [] ==>
      && !events[0].Cleared?
      && (events[0].Pushed? && events[0].frame.kind.TrapHandler? ==> events[0].frame.kind.signal !in s.active)
      && Disciplined(Apply(s, events[0]), events[1..])
  }

  /** The active signals are exactly those with a frame. */
  ghost predicate Tracked(s: Stack) {
    s.active == Signals(s.frames)
  }

  /** The step forgets no signal: nothing is cleared that has a frame, and no handler goes while another one of its signal stays. */
  predicate Remembers(s: Stack, e: Event) {
    match e
    case Cleared => Signals(s.frames) == {}
    case Popped => s.frames != [] && s.frames[0].kind.TrapHandler? ==> s.frames[0].kind.signal !in Signals(s.frames[1..])
    case _ => true
  }

  predicate AllRemember(s: Stack, events: seq<Event>)
    decreases |events|
  {
    events != [] ==> Remembers(s, events[0]) && AllRemember(Apply(s, events[0]), events[1..])
  }

  lemma TrackedStep(s: Stack, e: Event)
    requires Tracked(s)
    ensures Tracked(Apply(s, e)) <==> Remembers(s, e)
  {
    var next := Apply(s, e);
    if e.Pushed? {
      assert next.frames[1..] == s.frames;
    } else if e.Moved? && s.frames != [] {
      assert next.frames[1..] == s.frames[1..];
    }
  }

  /** The state after the first n events. */
  function RunTo(s: Stack, events: seq<Event>, n: nat): Stack
    requires n <= |events|
    decreases n
  {
    if n == 0 then s else RunTo(Apply(s, events[0]), events[1..], n - 1)
  }

  lemma {:induction false} RunToIsRun(s: Stack, events: seq<Event>, n: nat)
    requires n <= |events|
    ensures RunTo(s, events, n) == Run(s, events[..n])
    decreases n
  {
    if n > 0 {
      assert events[..n][1..] == events[1..][..n - 1];
      RunToIsRun(Apply(s, events[0]), events[1..], n - 1);
    }
  }

  ghost predicate AlwaysTracked(s: Stack, events: seq<Event>) {
    forall n | 0 <= n <= |events| :: Tracked(RunTo(s, events, n))
  }

  /** All along a run the active signals are those with a frame if and only if no step of it forgets a signal. */
  lemma {:induction false} TrackedExactly(s: Stack, events: seq<Event>)
    requires Tracked(s)
    ensures AlwaysTracked(s, events) <==> AllRemember(s, events)
    decreases |events|
  {
    if events != [] {
      var next, rest := Apply(s, events[0]), events[1..];
      TrackedStep(s, events[0]);
      assert RunTo(s, events, 1) == RunTo(next, rest, 0) == next;
      if Tracked(next) {
        TrackedExactly(next, rest);
        assert forall n | 1 <= n <= |events| :: RunTo(s, events, n) == RunTo(next, rest, n - 1);
        if AlwaysTracked(s, events) {
          forall n | 0 <= n <= |rest|
            ensures Tracked(RunTo(next, rest, n))
          {
            assert RunTo(s, events, n + 1) == RunTo(next, rest, n);
          }
        }
      }
    }
  }

  lemma DisciplinedStep(s: Stack, e: Event)
    requires Tracked(s) && OneEach(s.frames) && Disciplined(s, [e])
    ensures Remembers(s, e) && OneEach(Apply(s, e).frames)
  {
    var next := Apply(s, e);
    if e.Pushed? {
      assert next.frames[1..] == s.frames;
    } else if e.Moved? && s.frames != [] {
      assert next.frames[1..] == s.frames[1..];
    }
  }

  lemma {:induction false} DisciplinedRemembers(s: Stack, events: seq<Event>)
    requires Tracked(s) && OneEach(s.frames) && Disciplined(s, events)
    ensures AllRemember(s, events)
    decreases |events|
  {
    if events != [] {
      assert Disciplined(s, [events[0]]) by {
        assert [events[0]][1..] == [];
      }
      DisciplinedStep(s, events[0]);
      TrackedStep(s, events[0]);
      DisciplinedRemembers(Apply(s, events[0]), events[1..]);
    }
  }

  /** If nothing is cleared and no active signal is pushed again, the active signals are those with a frame. */
  lemma ActiveAreOnTheStack(events: seq<Event>)
    requires Disciplined(EMPTY, events)
    ensures Tracked(Run(EMPTY, events))
  {
    DisciplinedRemembers(EMPTY, events);
    TrackedExactly(EMPTY, events);
    RunToIsRun(EMPTY, events, |events|);
    assert events[..|events|] == events;
  }

  /** Without it they are not: a signal pushed twice is no longer active once the second frame is gone. */
  lemma PushedTwiceIsForgotten(place: Place)
    ensures
      var trap := Frame(TrapHandler(2), place);
      var s := Run(EMPTY, [Pushed(trap), Pushed(trap), Popped]);
      2 in Signals(s.frames) && 2 !in s.active
  {
    var trap := Frame(TrapHandler(2), place);
    var events := [Pushed(trap), Pushed(trap), Popped];
    var one, two := Push(EMPTY, trap), Push(Push(EMPTY, trap), trap);
    assert events[1..] == [Pushed(trap), Popped] && events[1..][1..] == [Popped] && [Popped][1..] == [];
    assert two.frames[1..] == one.frames;
    assert Run(EMPTY, events) == Run(one, [Pushed(trap), Popped]) == Run(two, [Popped]) == Run(Pop(two), []);
  }

  /** A push undone at once: the stack is as it was, if the signal pushed was not active. */
  lemma PopUndoesPush(s: Stack, f: Frame)
    requires f.kind.TrapHandler? ==> f.kind.signal !in s.active
    ensures Pop(Push(s, f)) == s
  {
    assert ([f] + s.frames)[1..] == s.frames;
  }

  /** Calls and returns that match, and moves of whatever frame is on top. */
  datatype Balanced = Nothing | Move(place: Place, after: Balanced) | Call(frame: Frame, inner: Balanced, after: Balanced)

  function Events(b: Balanced): seq<Event> {
    match b
    case Nothing => []
    case Move(place, after) => [Moved(place)] + Events(after)
    case Call(frame, inner, after) => [Pushed(frame)] + (Events(inner) + ([Popped] + Events(after)))
  }

  lemma {:induction false} RunConcat(s: Stack, a: seq<Event>, b: seq<Event>)
    ensures Run(s, a + b) == Run(Run(s, a), b)
    decreases |a|
  {
    if a == [] {
      assert a + b == b;
    } else {
      assert (a + b)[1..] == a[1..] + b;
      RunConcat(Apply(s, a[0]), a[1..], b);
    }
  }

  /** No active signal is pushed again on the way. */
  predicate WellBehaved(active: set<nat>, b: Balanced)
    decreases b
  {
    match b
    case Nothing => true
    case Move(_, after) => WellBehaved(active, after)
    case Call(frame, inner, after) =>
      && (frame.kind.TrapHandler? ==> frame.kind.signal !in active)
      && WellBehaved(Push(EMPTY.(active := active), frame).active, inner)
      && WellBehaved(active, after)
  }

  /** Nothing has changed but the place of the top frame. */
  ghost predicate SameButTop(s: Stack, t: Stack) {
    && s.functionDepth == t.functionDepth && s.sourceDepth == t.sourceDepth && s.active == t.active
    && |s.frames| == |t.frames|
    && (s.frames != [] ==> s.frames[0].kind == t.frames[0].kind && s.frames[1..] == t.frames[1..])
  }

  /** A balanced run moves the top frame at most: all other frames, the counters and the active signals are as they were. */
  lemma {:induction false} BalancedRestores(s: Stack, b: Balanced)
    requires WellBehaved(s.active, b)
    ensures SameButTop(s, Run(s, Events(b)))
    decreases b, 0
  {
    match b {
      case Nothing =>
      case Move(place, after) =>
        assert ([Moved(place)] + Events(after))[1..] == Events(after);
        BalancedRestores(SetTop(s, place), after);
      case Call(frame, inner, after) =>
        CallRestores(s, frame, inner, Events(after));
        BalancedRestores(s, after);
    }
  }

  /** A whole call restores the stack exactly, whatever it did inside. */
  lemma {:induction false} CallRestores(s: Stack, frame: Frame, inner: Balanced, rest: seq<Event>)
    requires frame.kind.TrapHandler? ==> frame.kind.signal !in s.active
    requires WellBehaved(Push(s, frame).active, inner)
    ensures Run(s, [Pushed(frame)] + (Events(inner) + ([Popped] + rest))) == Run(s, rest)
    decreases inner, 1
  {
    var pushed, tail := Push(s, frame), [Popped] + rest;
    assert ([Pushed(frame)] + (Events(inner) + tail))[1..] == Events(inner) + tail;
    BalancedRestores(pushed, inner);
    RunConcat(pushed, Events(inner), tail);
    assert tail[1..] == rest;
    PopUndoesPush(s, frame);
    assert pushed.frames[1..] == s.frames;
  }
}
