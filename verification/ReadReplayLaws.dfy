/** What a replay delivers and what it charges for. */
module ReadReplayLaws {
  import opened Wrappers
  import opened Intervals
  import opened ReadReplay

  /** The ranges the calls return under the configuration, kept or not. */
  function ReturnedRanges(calls: seq<Read>, fs: FileStats, cfg: Config): seq<Interval> {
    if calls == [] then []
    else
      var ret := EffectiveReturned(calls[0], fs, cfg);
      (if ret.Some? then [ret.value] else []) + ReturnedRanges(calls[1..], fs, cfg)
  }

  lemma CoversOne(iv: Interval, n: int)
    ensures Covers([iv], n) <==> Has(iv, n)
  {
    assert [iv][1..] == [];
  }

  lemma CoversSnoc(ivs: seq<Interval>, iv: Interval, n: int)
    ensures Covers(ivs + [iv], n) <==> Covers(ivs, n) || Has(iv, n)
  {
    CoversConcat(ivs, [iv], n);
    CoversOne(iv, n);
  }

  /** One step: coverage stays normal and gains exactly the range returned. */
  lemma StepKeeps(st: State, r: Read, fs: FileStats, cfg: Config)
    requires Normal(st.covered)
    ensures
      var next, ret := Step(st, r, fs, cfg), EffectiveReturned(r, fs, cfg);
      && Normal(next.covered)
      && forall n :: Covers(next.covered, n) <==> Covers(st.covered, n) || (ret.Some? && Has(ret.value, n))
  {
    var next, ret := Step(st, r, fs, cfg), EffectiveReturned(r, fs, cfg);
    if ret.Some? {
      ContainedIsCovered(st.covered, ret.value);
      if next != st {
        MergedCovers(st.covered + [ret.value]);
        forall n
          ensures Covers(next.covered, n) <==> Covers(st.covered, n) || Has(ret.value, n)
        {
          CoversSnoc(st.covered, ret.value, n);
        }
      }
    }
  }

  /** A charge brings at least one new line. */
  lemma StepBrings(st: State, r: Read, fs: FileStats, cfg: Config)
    requires Normal(st.covered)
    ensures
      var next := Step(st, r, fs, cfg);
      next.kept - st.kept <= |Lines(next.covered)| - |Lines(st.covered)|
  {
    var next, ret := Step(st, r, fs, cfg), EffectiveReturned(r, fs, cfg);
    StepKeeps(st, r, fs, cfg);
    if ret.Some? && next != st {
      ContainedIsCovered(st.covered, ret.value);
      var n :| Has(ret.value, n) && !Covers(st.covered, n);
      SubsetHasFewer(Lines(st.covered) + {n}, Lines(next.covered));
    }
  }

  lemma SubsetHasFewer(a: set<int>, b: set<int>)
    requires a <= b
    ensures |a| <= |b|
  {
    assert b == a + (b - a);
  }

  /** Phase one covers what the calls return, and never charges for a call that brings nothing new. */
  lemma {:induction false} PhaseOneCovers(st: State, calls: seq<Read>, fs: FileStats, cfg: Config)
    requires Normal(st.covered)
    ensures
      var one := PhaseOne(st, calls, fs, cfg);
      && Normal(one.covered)
      && (forall n :: Covers(one.covered, n) <==> Covers(st.covered, n) || Covers(ReturnedRanges(calls, fs, cfg), n))
      && one.kept - st.kept <= |Lines(one.covered)| - |Lines(st.covered)|
    decreases |calls|
  {
    if calls != [] {
      var next, ret := Step(st, calls[0], fs, cfg), EffectiveReturned(calls[0], fs, cfg);
      StepKeeps(st, calls[0], fs, cfg);
      StepBrings(st, calls[0], fs, cfg);
      PhaseOneCovers(next, calls[1..], fs, cfg);
      var own := if ret.Some? then [ret.value] else [];
      forall n
        ensures Covers(ReturnedRanges(calls, fs, cfg), n) <==> Covers(own, n) || Covers(ReturnedRanges(calls[1..], fs, cfg), n)
        ensures Covers(own, n) <==> ret.Some? && Has(ret.value, n)
      {
        CoversConcat(own, ReturnedRanges(calls[1..], fs, cfg), n);
        if ret.Some? {
          CoversOne(ret.value, n);
        }
      }
    }
  }

  lemma {:induction false} ObservedIsValid(calls: seq<Read>)
    ensures Valid(Observed(calls))
  {
    if calls != [] {
      ObservedIsValid(calls[1..]);
    }
  }

  /** The gaps are in order and disjoint, and hold exactly the needed lines that are not covered. */
  lemma {:induction false} GapsAreMissing(needed: seq<Interval>, covered: seq<Interval>)
    requires Normal(needed) && Valid(covered)
    ensures Disjoint(Gaps(needed, covered))
    ensures forall n :: Covers(Gaps(needed, covered), n) <==> Covers(needed, n) && !Covers(covered, n)
    decreases |needed|
  {
    if needed != [] {
      var first, rest := SubtractAll([needed[0]], covered), Gaps(needed[1..], covered);
      GapsAreMissing(needed[1..], covered);
      assert [needed[0]][1..] == [];
      SubtractIsDisjoint([needed[0]], covered, needed[0].lo, needed[0].hi);
      if first != [] && rest != [] {
        assert Covers(rest, rest[0].lo);
        SpacedGap(needed);
      }
      DisjointConcat(first, rest);
      forall n
        ensures Covers(Gaps(needed, covered), n) <==> Covers(needed, n) && !Covers(covered, n)
      {
        SubtractCovers([needed[0]], covered, n);
        CoversOne(needed[0], n);
        CoversConcat(first, rest, n);
      }
    }
  }

  /** All the chunks of all the gaps. */
  function AllChunks(gaps: seq<Interval>, cap: int): seq<Interval>
    requires cap >= 1
  {
    if gaps == [] then [] else Chunks(gaps[0].lo, gaps[0].hi, cap) + AllChunks(gaps[1..], cap)
  }

  /** Chunks neither lose a line nor repeat one. */
  lemma {:induction false} ChunksAreGaps(gaps: seq<Interval>, cap: int)
    requires cap >= 1 && Disjoint(gaps)
    ensures Disjoint(AllChunks(gaps, cap))
    ensures forall n :: Covers(AllChunks(gaps, cap), n) <==> Covers(gaps, n)
  {
    if gaps != [] {
      var first, rest := Chunks(gaps[0].lo, gaps[0].hi, cap), AllChunks(gaps[1..], cap);
      ChunksSplit(gaps[0].lo, gaps[0].hi, cap);
      ChunksAreGaps(gaps[1..], cap);
      if first != [] && rest != [] {
        assert Covers(rest, rest[0].lo);
        DisjointStarts(gaps[1..], rest[0].lo);
      }
      DisjointConcat(first, rest);
      forall n
        ensures Covers(AllChunks(gaps, cap), n) <==> Covers(gaps, n)
      {
        CoversConcat(first, rest, n);
      }
    }
  }

  /** Lines by the rate, and the overhead of each call. */
  function Charge(lines: int, count: int, rate: real): real {
    lines as real * rate + count as real * OVERHEAD
  }

  lemma ChargeAdds(lines: int, count: int, moreLines: int, moreCount: int, rate: real)
    ensures Charge(lines + moreLines, count + moreCount, rate) == Charge(lines, count, rate) + Charge(moreLines, moreCount, rate)
  {
    assert (lines + moreLines) as real * rate == lines as real * rate + moreLines as real * rate;
  }

  lemma {:induction false} ChunksCharge(st: State, chunks: seq<Interval>, fs: FileStats, cfg: Config)
    requires Valid(chunks)
    ensures
      var next := ChargeChunks(st, chunks, fs, cfg);
      && next.kept == st.kept + |chunks|
      && next.total == st.total + Charge(Size(chunks), |chunks|, fs.tokensPerLine)
      && next.covered == st.covered + chunks
    decreases |chunks|
  {
    if chunks == [] {
      assert st.covered + [] == st.covered;
    } else {
      var c, rest := chunks[0], chunks[1..];
      var next := State(st.covered + [c], st.total + CostOfChunk(c, fs, false, cfg) + OVERHEAD, st.kept + 1);
      ChunksCharge(next, rest, fs, cfg);
      ChargeAdds(c.hi - c.lo + 1, 1, Size(rest), |rest|, fs.tokensPerLine);
      assert st.covered + [c] + rest == st.covered + ([c] + rest);
      assert chunks == [c] + rest;
    }
  }

  lemma {:induction false} SizeConcat(a: seq<Interval>, b: seq<Interval>)
    ensures Size(a + b) == Size(a) + Size(b)
  {
    if a == [] {
      assert a + b == b;
    } else {
      assert (a + b)[1..] == a[1..] + b;
      SizeConcat(a[1..], b);
    }
  }

  lemma {:induction false} DisjointIsValid(ivs: seq<Interval>)
    requires Disjoint(ivs)
    ensures Valid(ivs)
  {
    if ivs != [] {
      DisjointIsValid(ivs[1..]);
      assert ivs == [ivs[0]] + ivs[1..];
    }
  }

  /** One gap filled. */
  lemma GapFills(st: State, gap: Interval, fs: FileStats, cfg: Config) returns (next: State)
    requires MaxPerCall(cfg) >= 1
    ensures
      var chunks := Chunks(gap.lo, gap.hi, MaxPerCall(cfg));
      var charged := ChargeChunks(st, chunks, fs, cfg);
      && next == charged.(covered := Merged(charged.covered))
      && (forall n :: Covers(next.covered, n) <==> Covers(st.covered, n) || Has(gap, n))
      && next.kept == st.kept + |chunks|
      && next.total == st.total + Charge(Size(chunks), |chunks|, fs.tokensPerLine)
  {
    var chunks := Chunks(gap.lo, gap.hi, MaxPerCall(cfg));
    var charged := ChargeChunks(st, chunks, fs, cfg);
    ChunksSplit(gap.lo, gap.hi, MaxPerCall(cfg));
    DisjointIsValid(chunks);
    ChunksCharge(st, chunks, fs, cfg);
    MergedCovers(charged.covered);
    next := charged.(covered := Merged(charged.covered));
    forall n
      ensures Covers(next.covered, n) <==> Covers(st.covered, n) || Has(gap, n)
    {
      CoversConcat(st.covered, chunks, n);
    }
  }

  /** Phase two covers the gaps, one call a chunk. */
  lemma {:induction false} PhaseTwoFills(st: State, gaps: seq<Interval>, fs: FileStats, cfg: Config)
    requires MaxPerCall(cfg) >= 1
    ensures
      var two, chunks := PhaseTwo(st, gaps, fs, cfg), AllChunks(gaps, MaxPerCall(cfg));
      && (forall n :: Covers(two.covered, n) <==> Covers(st.covered, n) || Covers(gaps, n))
      && two.kept == st.kept + |chunks|
      && two.total == st.total + Charge(Size(chunks), |chunks|, fs.tokensPerLine)
    decreases |gaps|
  {
    if gaps != [] {
      var first, rest := Chunks(gaps[0].lo, gaps[0].hi, MaxPerCall(cfg)), AllChunks(gaps[1..], MaxPerCall(cfg));
      var next := GapFills(st, gaps[0], fs, cfg);
      PhaseTwoFills(next, gaps[1..], fs, cfg);
      SizeConcat(first, rest);
      ChargeAdds(Size(first), |first|, Size(rest), |rest|, fs.tokensPerLine);
    }
  }

  /** The lines an agent saw that phase one does not deliver. */
  function Missing(calls: seq<Read>, fs: FileStats, cfg: Config): set<int> {
    Lines(Observed(calls)) - Lines(PhaseOne(START, calls, fs, cfg).covered)
  }

  function Filling(calls: seq<Read>, fs: FileStats, cfg: Config): seq<Interval>
    requires MaxPerCall(cfg) >= 1
  {
    AllChunks(Gaps(Merged(Observed(calls)), PhaseOne(START, calls, fs, cfg).covered), MaxPerCall(cfg))
  }

  lemma GapsOfReplay(calls: seq<Read>, fs: FileStats, cfg: Config)
    ensures
      var gaps := Gaps(Merged(Observed(calls)), PhaseOne(START, calls, fs, cfg).covered);
      Disjoint(gaps) && forall n :: Covers(gaps, n) <==> n in Missing(calls, fs, cfg)
  {
    var one := PhaseOne(START, calls, fs, cfg);
    PhaseOneCovers(START, calls, fs, cfg);
    ObservedIsValid(calls);
    MergedCovers(Observed(calls));
    GapsAreMissing(Merged(Observed(calls)), one.covered);
  }

  /** After a replay the coverage is what the calls return together with every line that was seen. */
  lemma ReplayDelivers(calls: seq<Read>, fs: FileStats, cfg: Config, n: int)
    requires MaxPerCall(cfg) >= 1
    ensures
      Covers(Replayed(calls, fs, cfg).covered, n)
      <==> Covers(ReturnedRanges(calls, fs, cfg), n) || Covers(Observed(calls), n)
  {
    var one := PhaseOne(START, calls, fs, cfg);
    PhaseOneCovers(START, calls, fs, cfg);
    GapsOfReplay(calls, fs, cfg);
    PhaseTwoFills(one, Gaps(Merged(Observed(calls)), one.covered), fs, cfg);
  }

  /** Phase two charges every missing line once and no other, and one overhead a chunk. */
  lemma ReplayCharges(calls: seq<Read>, fs: FileStats, cfg: Config)
    requires MaxPerCall(cfg) >= 1
    ensures
      var one, two, chunks := PhaseOne(START, calls, fs, cfg), Replayed(calls, fs, cfg), Filling(calls, fs, cfg);
      && Disjoint(chunks) && Lines(chunks) == Missing(calls, fs, cfg)
      && two.kept == one.kept + |chunks|
      && two.total == one.total + Charge(|Missing(calls, fs, cfg)|, |chunks|, fs.tokensPerLine)
  {
    var one := PhaseOne(START, calls, fs, cfg);
    var gaps := Gaps(Merged(Observed(calls)), one.covered);
    GapsOfReplay(calls, fs, cfg);
    ChunksAreGaps(gaps, MaxPerCall(cfg));
    var chunks := Filling(calls, fs, cfg);
    SizeCountsLines(chunks);
    assert Lines(chunks) == Missing(calls, fs, cfg);
    PhaseTwoFills(one, gaps, fs, cfg);
  }
}
