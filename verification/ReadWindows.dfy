/** Windows a read asks for and gets, and skipping the reads that earlier windows already answer. */
module ReadWindows {
  import opened Wrappers
  import opened Intervals

  datatype Kind = Explicit | Open | Default | Other

  datatype Call = Call(kind: Kind, start: int, end: int)

  datatype Config = Config(page: int, maxLines: int, leading: int, trailing: int)

  /** An explicit range never ends before it starts, and starts at line 0 or later. */
  predicate Parsed(c: Call) {
    c.start >= 0 && (c.kind == Explicit ==> c.start <= c.end)
  }

  predicate Sensible(cfg: Config) {
    cfg.page >= 1 && cfg.maxLines >= 1 && cfg.leading >= 0 && cfg.trailing >= 0
  }

  function Requested(c: Call, cfg: Config): Option<Interval> {
    match c.kind
    case Explicit => Some(Interval(c.start, c.end))
    case Open => Some(Interval(c.start, c.start + cfg.page - 1))
    case Default => Some(Interval(1, cfg.page))
    case Other => None
  }

  /** First line sent: some context before the one asked for, if there is any. */
  function FirstSent(s: int, cfg: Config): int {
    if s > 1 then Max(1, s - cfg.leading) else 1
  }

  function Delivered(c: Call, cfg: Config): Option<Interval> {
    var start := FirstSent(c.start, cfg);
    match c.kind
    case Explicit =>
      var lines := Min(Max(1, c.end - c.start + 1) + (c.start - start) + cfg.trailing, cfg.maxLines);
      Some(Interval(start, start + lines - 1))
    case Open =>
      var lines := Min(cfg.page + (c.start - start), cfg.maxLines);
      Some(Interval(start, start + lines - 1))
    case Default => Some(Interval(1, Min(cfg.page, cfg.maxLines)))
    case Other => None
  }

  ghost predicate Within(inner: Interval, outer: Interval) {
    forall n | Has(inner, n) :: Has(outer, n)
  }

  /** The last line asked for, counted from the first line sent. */
  function Reach(c: Call, cfg: Config): int {
    match c.kind
    case Explicit => c.end - FirstSent(c.start, cfg) + 1
    case Open => c.start + cfg.page - FirstSent(c.start, cfg)
    case _ => cfg.page
  }

  /** A read gets all it asked for exactly when it starts at line 1 or later and the cap reaches its last line. */
  lemma DeliversWhatFits(c: Call, cfg: Config)
    requires Parsed(c) && Sensible(cfg) && c.kind != Other
    ensures Within(Requested(c, cfg).value, Delivered(c, cfg).value) <==>
            (c.kind == Default || c.start >= 1) && Reach(c, cfg) <= cfg.maxLines
  {
    var asked, sent := Requested(c, cfg).value, Delivered(c, cfg).value;
    assert Has(asked, asked.hi);
    if c.kind != Default && c.start == 0 {
      assert Has(asked, 0);
    } else if Reach(c, cfg) <= cfg.maxLines {
      assert sent.lo <= asked.lo && asked.hi <= sent.hi;
    } else {
      assert !Has(sent, asked.hi);
    }
  }

  /** The test that counts a call as truncated; it takes a zero for a missing number. */
  predicate CountedTruncated(c: Call, cfg: Config) {
    var start := if c.start != 0 then c.start else 1;
    var end := if c.end != 0 then c.end else start;
    && c.kind == Explicit
    && Delivered(c, cfg).value.hi - Delivered(c, cfg).value.lo + 1 >= cfg.maxLines
    && Max(1, end - start + 1) + cfg.leading + cfg.trailing > cfg.maxLines
  }

  /** A call from line 0 is sent one line less than it asks for; it is only counted when the rest fills the cap. */
  predicate FillsCap(c: Call, cfg: Config) {
    c.start != 0 || (c.end + cfg.trailing >= cfg.maxLines && Max(1, c.end) + cfg.leading + cfg.trailing > cfg.maxLines)
  }

  /** A call that is cut short is counted as truncated, unless it starts at line 0 and what it gets does not fill the cap. */
  lemma CutIsCounted(c: Call, cfg: Config)
    requires Parsed(c) && Sensible(cfg) && c.kind == Explicit
    requires !Within(Requested(c, cfg).value, Delivered(c, cfg).value)
    ensures CountedTruncated(c, cfg) <==> FillsCap(c, cfg)
  {
    DeliversWhatFits(c, cfg);
  }

  /** A counted call is cut short exactly when it starts at line 0 or its reach passes the cap. */
  lemma CountedIsCut(c: Call, cfg: Config)
    requires Parsed(c) && Sensible(cfg) && CountedTruncated(c, cfg)
    ensures !Within(Requested(c, cfg).value, Delivered(c, cfg).value) <==> c.start == 0 || Reach(c, cfg) > cfg.maxLines
  {
    DeliversWhatFits(c, cfg);
  }

  /** A call that only loses its trailing context is counted although it gets all it asked for. */
  lemma CountedButWhole()
    ensures
      var c, cfg := Call(Explicit, 1, 5), Config(10, 5, 0, 2);
      CountedTruncated(c, cfg) && Within(Requested(c, cfg).value, Delivered(c, cfg).value)
  {
    DeliversWhatFits(Call(Explicit, 1, 5), Config(10, 5, 0, 2));
  }

  /** At least one line is sent. */
  predicate SendsSome(c: Call, cfg: Config) {
    var sent := Delivered(c, cfg);
    sent.Some? ==> sent.value.lo <= sent.value.hi
  }

  /** A read comes back empty exactly when it asks for line 0 alone and gets no context after it. */
  lemma EmptyOnlyAtZero(c: Call, cfg: Config)
    requires Parsed(c) && Sensible(cfg)
    ensures
      SendsSome(c, cfg)
      <==> !(c.start == 0 && ((c.kind == Explicit && c.end == 0 && cfg.trailing == 0) || (c.kind == Open && cfg.page == 1)))
  {
  }

  // ----- One group of calls

  datatype Tally = Tally(coverage: seq<Interval>, calls: nat, skipped: nat)

  /** The first call is always paid; a later one is skipped when all it asks for is covered. */
  ghost function Next(t: Tally, first: bool, c: Call, cfg: Config): Tally {
    if c.kind == Other then t.(calls := t.calls + 1)
    else if !first && AllCovered(t.coverage, Requested(c, cfg).value) then t.(skipped := t.skipped + 1)
    else Tally(Add(t.coverage, Delivered(c, cfg).value, false), t.calls + 1, t.skipped)
  }

  ghost function Tallied(t: Tally, first: bool, group: seq<Call>, cfg: Config): Tally
    decreases |group|
  {
    if group == [] then t else Tallied(Next(t, first, group[0], cfg), false, group[1..], cfg)
  }

  method ReplayGroup(group: seq<Call>, cfg: Config) returns (calls: nat, skipped: nat, coverage: seq<Interval>)
    requires Sensible(cfg) && forall i | 0 <= i < |group| :: Parsed(group[i])
    ensures Tally(coverage, calls, skipped) == Tallied(Tally([], 0, 0), true, group, cfg)
  {
    calls, skipped, coverage := 0, 0, [];
    ghost var want := Tallied(Tally([], 0, 0), true, group, cfg);
    assert group[0..] == group;
    for idx := 0 to |group|
      invariant Spaced(coverage)
      invariant Tallied(Tally(coverage, calls, skipped), idx == 0, group[idx..], cfg) == want
    {
      assert group[idx..][1..] == group[idx + 1..];
      var c := group[idx];
      if c.kind == Other {
        calls := calls + 1;
        continue;
      }
      WindowsAreValid(c, cfg);
      if idx > 0 {
        var covered := IsCovered(coverage, Requested(c, cfg).value);
        if covered {
          skipped := skipped + 1;
          continue;
        }
      }
      AddIsSpaced(coverage, Delivered(c, cfg).value);
      calls := calls + 1;
      coverage := AddInterval(coverage, Delivered(c, cfg).value);
    }
    assert group[|group|..] == [];
  }

  lemma WindowsAreValid(c: Call, cfg: Config)
    requires Parsed(c) && Sensible(cfg) && c.kind != Other
    ensures Requested(c, cfg).value.lo <= Requested(c, cfg).value.hi
    ensures Delivered(c, cfg).value.lo <= Delivered(c, cfg).value.hi + 1
  {
  }

  /** The windows of the calls that are paid for. */
  ghost function PaidWindows(t: Tally, first: bool, group: seq<Call>, cfg: Config): seq<Interval>
    decreases |group|
  {
    if group == [] then []
    else
      var next := Next(t, first, group[0], cfg);
      (if group[0].kind != Other && next.calls > t.calls then [Delivered(group[0], cfg).value] else [])
      + PaidWindows(next, false, group[1..], cfg)
  }

  /** Every call is paid or skipped, and the coverage is what the paid ones delivered. */
  lemma {:induction false} GroupIsTallied(t: Tally, first: bool, group: seq<Call>, cfg: Config)
    requires Spaced(t.coverage) && Sensible(cfg) && forall i | 0 <= i < |group| :: Parsed(group[i])
    ensures
      var r := Tallied(t, first, group, cfg);
      && Spaced(r.coverage)
      && r.calls + r.skipped == t.calls + t.skipped + |group|
      && forall n :: Covers(r.coverage, n) <==> Covers(t.coverage, n) || Covers(PaidWindows(t, first, group, cfg), n)
    decreases |group|
  {
    if group != [] {
      var c, next := group[0], Next(t, first, group[0], cfg);
      var own := if c.kind != Other && next.calls > t.calls then [Delivered(c, cfg).value] else [];
      if own != [] {
        WindowsAreValid(c, cfg);
        AddIsSpaced(t.coverage, own[0]);
      }
      GroupIsTallied(next, false, group[1..], cfg);
      forall n
        ensures Covers(next.coverage, n) <==> Covers(t.coverage, n) || Covers(own, n)
        ensures
          Covers(PaidWindows(t, first, group, cfg), n)
          <==> Covers(own, n) || Covers(PaidWindows(next, false, group[1..], cfg), n)
      {
        CoversConcat(own, PaidWindows(next, false, group[1..], cfg), n);
        if own != [] {
          AddCovers(t.coverage, own[0], n);
          assert own[1..] == [];
        }
      }
    }
  }

  /** A skipped call is answered: every line it asks for was in the window of some call paid before it. */
  lemma SkippedIsAnswered(before: seq<Call>, c: Call, cfg: Config, n: int)
    requires Sensible(cfg) && forall i | 0 <= i < |before| :: Parsed(before[i])
    requires before != [] && c.kind != Other
    requires
      var t := Tallied(Tally([], 0, 0), true, before, cfg);
      Next(t, false, c, cfg).skipped == t.skipped + 1
    requires Has(Requested(c, cfg).value, n)
    ensures Covers(PaidWindows(Tally([], 0, 0), true, before, cfg), n)
  {
    GroupIsTallied(Tally([], 0, 0), true, before, cfg);
  }
}
