/** Replaying recorded reads of a file under other limits. */
module ReadReplay {
  import opened Wrappers
  import opened Intervals

  datatype Kind = Bare | Range | Raw | Unbounded

  /** A recorded read: what was asked for, and the lines that came back. */
  datatype Read = Read(kind: Kind, start: Option<int>, end: Option<int>, actualA: Option<int>, actualB: Option<int>)

  /** The byte cap is there as whole lines, when the bytes per line are known. */
  datatype Config = Config(defaultPage: int, lineCap: int, byteLines: Option<int>, summarizeMin: int)

  datatype FileStats = FileStats(sizeLines: int, tokensPerLine: real)

  const OVERHEAD := 200.0

  function OrOne(n: Option<int>): int {
    if n.Some? && n.value != 0 then n.value else 1
  }

  /** The range the tool returns: what was asked for, cut to the file and the caps, but never empty. */
  function EffectiveReturned(r: Read, fs: FileStats, cfg: Config): (iv: Option<Interval>)
    ensures iv.None? <==> r.kind == Unbounded
    ensures iv.Some? ==> iv.value.lo <= iv.value.hi
  {
    if r.kind == Unbounded then None
    else
      var size := Max(fs.sizeLines, 1);
      var start := if r.kind == Range then OrOne(r.start) else 1;
      var asked :=
        if r.kind == Bare then cfg.defaultPage
        else if r.kind == Raw then size
        else if r.end.Some? then r.end.value
        else start + cfg.defaultPage - 1;
      var capped := Min(Min(asked, size), start + cfg.lineCap - 1);
      var end := if cfg.byteLines.Some? then Min(capped, start + Max(1, cfg.byteLines.value) - 1) else capped;
      Some(Interval(start, Max(start, end)))
  }

  function CostOfChunk(iv: Interval, fs: FileStats, bare: bool, cfg: Config): real {
    var raw := Max(iv.hi - iv.lo + 1, 0) as real * fs.tokensPerLine;
    if bare && cfg.summarizeMin >= 0 && fs.sizeLines >= cfg.summarizeMin then raw * 0.35 else raw
  }

  function MaxPerCall(cfg: Config): int {
    if cfg.byteLines.Some? then Min(cfg.lineCap, Max(1, cfg.byteLines.value)) else cfg.lineCap
  }

  // ----- Chunks

  function Chunks(cur: int, e: int, cap: int): seq<Interval>
    requires cap >= 1
    decreases e - cur
  {
    if cur > e then [] else
      var end := Min(cur + cap - 1, e);
      [Interval(cur, end)] + Chunks(end + 1, e, cap)
  }

  method ChunkRange(s: int, e: int, cap: int) returns (out: seq<Interval>)
    requires cap >= 1
    ensures out == Chunks(s, e, cap)
  {
    out := [];
    var cur := s;
    while cur <= e
      invariant out + Chunks(cur, e, cap) == Chunks(s, e, cap)
      decreases e - cur
    {
      var end := Min(cur + cap - 1, e);
      ghost var rest := Chunks(end + 1, e, cap);
      assert out + ([Interval(cur, end)] + rest) == out + [Interval(cur, end)] + rest;
      out := out + [Interval(cur, end)];
      cur := end + 1;
    }
  }

  /** The smallest number of calls whose caps add up to so many lines: the quotient rounded up. */
  predicate FewestCalls(count: int, lines: int, cap: int) {
    (count - 1) * cap < lines <= count * cap
  }

  /** Chunks split a range, each line in one of them, none over the cap. */
  lemma {:induction false} ChunksSplit(s: int, e: int, cap: int)
    requires cap >= 1
    ensures forall n :: Covers(Chunks(s, e, cap), n) <==> s <= n <= e
    ensures Disjoint(Chunks(s, e, cap)) && Within(Chunks(s, e, cap), s, e)
    ensures forall i | 0 <= i < |Chunks(s, e, cap)| :: Chunks(s, e, cap)[i].hi - Chunks(s, e, cap)[i].lo + 1 <= cap
    decreases e - s
  {
    if s <= e {
      var end := Min(s + cap - 1, e);
      var rest := Chunks(end + 1, e, cap);
      ChunksSplit(end + 1, e, cap);
      assert ([Interval(s, end)] + rest)[1..] == rest;
    }
  }

  /** And there are as few of them as the cap allows. */
  lemma {:induction false} ChunksAreFewest(s: int, e: int, cap: int)
    requires cap >= 1 && s <= e
    ensures FewestCalls(|Chunks(s, e, cap)|, e - s + 1, cap)
    decreases e - s
  {
    var rest := Chunks(s + cap, e, cap);
    if s + cap - 1 < e {
      ChunksAreFewest(s + cap, e, cap);
      assert |Chunks(s, e, cap)| == 1 + |rest|;
      assert (1 + |rest|) * cap == cap + |rest| * cap && |rest| * cap == cap + (|rest| - 1) * cap;
    } else {
      assert Chunks(e + 1, e, cap) == [] && |Chunks(s, e, cap)| == 1;
      assert 1 * cap == cap;
    }
  }

  // ----- The two phases

  datatype State = State(covered: seq<Interval>, total: real, kept: nat)

  /** One observed call: dropped when what it returns is all there already, else charged and kept. */
  function Step(st: State, r: Read, fs: FileStats, cfg: Config): State {
    var ret := EffectiveReturned(r, fs, cfg);
    if ret.None? || exists i :: 0 <= i < |st.covered| && st.covered[i].lo <= ret.value.lo && st.covered[i].hi >= ret.value.hi then st
    else
      State(Merged(st.covered + [ret.value]), st.total + CostOfChunk(ret.value, fs, r.kind == Bare, cfg) + OVERHEAD, st.kept + 1)
  }

  function PhaseOne(st: State, calls: seq<Read>, fs: FileStats, cfg: Config): State
    decreases |calls|
  {
    if calls == [] then st else PhaseOne(Step(st, calls[0], fs, cfg), calls[1..], fs, cfg)
  }

  /** The lines a read was seen to bring. */
  function Seen(r: Read): seq<Interval>
    ensures Valid(Seen(r))
  {
    if r.actualA.Some? && r.actualB.Some? && r.actualB.value >= r.actualA.value then [Interval(r.actualA.value, r.actualB.value)] else []
  }

  function Observed(calls: seq<Read>): seq<Interval> {
    if calls == [] then [] else Seen(calls[0]) + Observed(calls[1..])
  }

  /** What is missing of each needed range. */
  function Gaps(needed: seq<Interval>, covered: seq<Interval>): seq<Interval> {
    if needed == [] then [] else SubtractAll([needed[0]], covered) + Gaps(needed[1..], covered)
  }

  function ChargeChunks(st: State, chunks: seq<Interval>, fs: FileStats, cfg: Config): State
    decreases |chunks|
  {
    if chunks == [] then st
    else
      ChargeChunks(State(st.covered + [chunks[0]], st.total + CostOfChunk(chunks[0], fs, false, cfg) + OVERHEAD, st.kept + 1),
                   chunks[1..], fs, cfg)
  }

  function PhaseTwo(st: State, gaps: seq<Interval>, fs: FileStats, cfg: Config): State
    requires MaxPerCall(cfg) >= 1
    decreases |gaps|
  {
    if gaps == [] then st
    else
      var next := ChargeChunks(st, Chunks(gaps[0].lo, gaps[0].hi, MaxPerCall(cfg)), fs, cfg);
      PhaseTwo(next.(covered := Merged(next.covered)), gaps[1..], fs, cfg)
  }

  const START := State([], 0.0, 0)

  function Replayed(calls: seq<Read>, fs: FileStats, cfg: Config): State
    requires MaxPerCall(cfg) >= 1
  {
    var one := PhaseOne(START, calls, fs, cfg);
    PhaseTwo(one, Gaps(Merged(Observed(calls)), one.covered), fs, cfg)
  }

  method ReplayPair(calls: seq<Read>, fs: FileStats, cfg: Config) returns (total: real, kept: nat)
    requires MaxPerCall(cfg) >= 1
    ensures var st := Replayed(calls, fs, cfg); total == st.total && kept == st.kept
  {
    var covered, needed := ReplayObserved(calls, fs, cfg);
    ghost var one := PhaseOne(START, calls, fs, cfg);
    needed := Merge(needed);
    var gaps := CollectGaps(needed, covered.covered);
    var st := FillGaps(covered, gaps, fs, cfg);
    total, kept := st.total, st.kept;
  }

  method ReplayObserved(calls: seq<Read>, fs: FileStats, cfg: Config) returns (st: State, needed: seq<Interval>)
    ensures st == PhaseOne(START, calls, fs, cfg) && needed == Observed(calls)
  {
    var covered: seq<Interval>, total, kept: nat := [], 0.0, 0;
    needed := [];
    ghost var want, all := PhaseOne(START, calls, fs, cfg), Observed(calls);
    assert calls[0..] == calls;
    for i := 0 to |calls|
      invariant PhaseOne(State(covered, total, kept), calls[i..], fs, cfg) == want
      invariant needed + Observed(calls[i..]) == all
    {
      var r := calls[i];
      NextRead(State(covered, total, kept), needed, calls, i, fs, cfg);
      needed := needed + Seen(r);
      var ret := EffectiveReturned(r, fs, cfg);
      if ret.None? {
        continue;
      }
      var inside := Contained(ret.value.lo, ret.value.hi, covered);
      if inside {
        continue;
      }
      total := total + CostOfChunk(ret.value, fs, r.kind == Bare, cfg) + OVERHEAD;
      kept := kept + 1;
      covered := Merge(covered + [ret.value]);
    }
    assert calls[|calls|..] == [];
    st := State(covered, total, kept);
  }

  lemma NextRead(st: State, needed: seq<Interval>, calls: seq<Read>, i: nat, fs: FileStats, cfg: Config)
    requires i < |calls|
    ensures PhaseOne(st, calls[i..], fs, cfg) == PhaseOne(Step(st, calls[i], fs, cfg), calls[i + 1..], fs, cfg)
    ensures needed + Observed(calls[i..]) == needed + Seen(calls[i]) + Observed(calls[i + 1..])
  {
    assert calls[i..][1..] == calls[i + 1..];
    var rest := Observed(calls[i + 1..]);
    assert needed + (Seen(calls[i]) + rest) == needed + Seen(calls[i]) + rest;
  }

  method CollectGaps(needed: seq<Interval>, covered: seq<Interval>) returns (gaps: seq<Interval>)
    ensures gaps == Gaps(needed, covered)
  {
    gaps := [];
    ghost var want := Gaps(needed, covered);
    assert needed[0..] == needed;
    for i := 0 to |needed|
      invariant gaps + Gaps(needed[i..], covered) == want
    {
      assert needed[i..][1..] == needed[i + 1..];
      assert needed[i] == Interval(needed[i].lo, needed[i].hi);
      var left := Subtract(needed[i].lo, needed[i].hi, covered);
      ghost var rest := Gaps(needed[i + 1..], covered);
      assert gaps + (left + rest) == gaps + left + rest;
      gaps := gaps + left;
    }
    assert needed[|needed|..] == [];
  }

  method FillGaps(one: State, gaps: seq<Interval>, fs: FileStats, cfg: Config) returns (st: State)
    requires MaxPerCall(cfg) >= 1
    ensures st == PhaseTwo(one, gaps, fs, cfg)
  {
    var covered: seq<Interval>, total: real, kept: nat := one.covered, one.total, one.kept;
    ghost var want := PhaseTwo(one, gaps, fs, cfg);
    assert gaps[0..] == gaps;
    for i := 0 to |gaps|
      invariant PhaseTwo(State(covered, total, kept), gaps[i..], fs, cfg) == want
    {
      assert gaps[i..][1..] == gaps[i + 1..];
      var chunks := ChunkRange(gaps[i].lo, gaps[i].hi, MaxPerCall(cfg));
      ghost var next := ChargeChunks(State(covered, total, kept), chunks, fs, cfg);
      assert chunks[0..] == chunks;
      for j := 0 to |chunks|
        invariant ChargeChunks(State(covered, total, kept), chunks[j..], fs, cfg) == next
      {
        assert chunks[j..][1..] == chunks[j + 1..];
        total := total + CostOfChunk(chunks[j], fs, false, cfg) + OVERHEAD;
        kept := kept + 1;
        covered := covered + [chunks[j]];
      }
      assert chunks[|chunks|..] == [];
      covered := Merge(covered);
    }
    assert gaps[|gaps|..] == [];
    st := State(covered, total, kept);
  }
}
