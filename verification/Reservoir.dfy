/** A bounded random sample of a stream. */
module Reservoir {

  /** Keeps at most size items; the draw stands for the number the generator returns. */
  class ReservoirSample<T> {
    const size: int
    var items: seq<T>
    var seen: nat

    ghost predicate Valid()
      reads this
    {
      if size <= 0 then items == [] && seen == 0 else |items| == if seen < size then seen else size
    }

    constructor (size: int)
      ensures Valid() && this.size == size && items == [] && seen == 0
    {
      this.size, items, seen := size, [], 0;
    }

    method Add(item: T, draw: nat)
      requires Valid() && draw <= seen
      modifies this
      ensures Valid() && items == AfterAdd(size, old(items), item, draw)
      ensures seen == if size <= 0 then old(seen) else old(seen) + 1
    {
      if size <= 0 {
        return;
      }
      seen := seen + 1;
      if |items| < size {
        items := items + [item];
        return;
      }
      var index := draw;
      if index < size {
        items := items[index := item];
      }
    }
  }

  function AfterAdd<T>(size: int, items: seq<T>, item: T, draw: nat): seq<T> {
    if size <= 0 then items
    else if |items| < size then items + [item]
    else if draw < |items| then items[draw := item]
    else items
  }

  /** The sample of the first n items, when the t-th draw beyond the size is draws[t]. */
  function Sample<T>(stream: seq<T>, n: nat, size: nat, draws: seq<nat>): (s: seq<T>)
    requires n <= |stream| && n - size <= |draws|
    ensures |s| == if n < size then n else size
  {
    if n <= size then stream[..n]
    else
      var before := Sample(stream, n - 1, size, draws);
      var draw := draws[n - 1 - size];
      if draw < size then before[draw := stream[n - 1]] else before
  }

  /** Draws in range: the one taken when m items have been seen before is at most m. */
  predicate InRange(size: nat, draws: seq<nat>) {
    forall t | 0 <= t < |draws| :: draws[t] <= size + t
  }

  method SampleReservoir<T>(stream: seq<T>, size: int, draws: seq<nat>) returns (items: seq<T>)
    requires size > 0 ==> |stream| - size <= |draws| && InRange(size, draws)
    ensures items == if size <= 0 then [] else Sample(stream, |stream|, size, draws)
  {
    var sample := new ReservoirSample<T>(size);
    for i := 0 to |stream|
      invariant sample.Valid() && sample.size == size
      invariant size <= 0 ==> sample.items == [] && sample.seen == 0
      invariant size > 0 ==> sample.seen == i && sample.items == Sample(stream, i, size, draws)
      modifies sample
    {
      sample.Add(stream[i], if size > 0 && i >= size then draws[i - size] else 0);
    }
    items := sample.items;
  }

  // ----- The sample as positions

  function Positions(n: nat, size: nat, draws: seq<nat>): (s: seq<nat>)
    requires n - size <= |draws|
    ensures |s| == if n < size then n else size
    ensures forall k | 0 <= k < |s| :: s[k] < n
  {
    if n <= size then seq(n, i => i)
    else
      var before := Positions(n - 1, size, draws);
      var draw := draws[n - 1 - size];
      if draw < size then before[draw := n - 1] else before
  }

  /** The sample holds the items at distinct positions of the stream. */
  lemma {:induction false} SampleIsAtPositions<T>(stream: seq<T>, n: nat, size: nat, draws: seq<nat>)
    requires n <= |stream| && n - size <= |draws|
    ensures
      var s, p := Sample(stream, n, size, draws), Positions(n, size, draws);
      && |s| == |p|
      && (forall k | 0 <= k < |s| :: s[k] == stream[p[k]])
      && forall i, j | 0 <= i < j < |p| :: p[i] != p[j]
  {
    if n > size {
      SampleIsAtPositions(stream, n - 1, size, draws);
    }
  }

  lemma {:induction false} PositionsUseFirstDraws(n: nat, size: nat, draws: seq<nat>, more: seq<nat>)
    requires n - size <= |draws|
    ensures Positions(n, size, draws + more) == Positions(n, size, draws)
  {
    if n > size {
      PositionsUseFirstDraws(n - 1, size, draws, more);
    }
  }

  lemma {:induction false} PositionsAreDistinct(n: nat, size: nat, draws: seq<nat>)
    requires n - size <= |draws|
    ensures forall i, j | 0 <= i < j < |Positions(n, size, draws)| :: Positions(n, size, draws)[i] != Positions(n, size, draws)[j]
  {
    if n > size {
      PositionsAreDistinct(n - 1, size, draws);
    }
  }
}

/** Counting the outcomes of the draws. */
module ReservoirUniformity {
  import opened Reservoir

  /** The draws of a run, the last one outermost. */
  datatype Outcome = Start | Draw(before: Outcome, index: nat)

  function OutcomeOf(draws: seq<nat>): Outcome {
    if draws == [] then Start else Draw(OutcomeOf(draws[..|draws| - 1]), draws[|draws| - 1])
  }

  function Length(o: Outcome): nat {
    if o.Start? then 0 else Length(o.before) + 1
  }

  /** The positions in the sample after the first size items and one item for each draw. */
  function Chosen(size: nat, o: Outcome): (s: seq<nat>)
    ensures |s| == size
  {
    if o.Start? then seq(size, i => i)
    else
      var before := Chosen(size, o.before);
      if o.index < size then before[o.index := size + Length(o.before)] else before
  }

  /** These are the positions of the sample. */
  lemma {:induction false} ChosenArePositions(size: nat, draws: seq<nat>)
    ensures Length(OutcomeOf(draws)) == |draws|
    ensures Chosen(size, OutcomeOf(draws)) == Positions(size + |draws|, size, draws)
  {
    if draws != [] {
      var init, last := draws[..|draws| - 1], draws[|draws| - 1];
      ChosenArePositions(size, init);
      PositionsUseFirstDraws(size + |init|, size, init, [last]);
      assert init + [last] == draws;
    }
  }

  lemma {:induction false} ChosenAreDistinct(size: nat, o: Outcome)
    ensures forall k | 0 <= k < size :: Chosen(size, o)[k] < size + Length(o)
    ensures forall i, j | 0 <= i < j < size :: Chosen(size, o)[i] != Chosen(size, o)[j]
  {
    if o.Draw? {
      ChosenAreDistinct(size, o.before);
    }
  }

  function Below(k: nat): (s: set<nat>)
    ensures forall i :: i in s <==> 0 <= i < k
    ensures |s| == k
  {
    if k == 0 then {} else Below(k - 1) + {k - 1}
  }

  function IndexOf(s: seq<nat>, x: nat): (k: nat)
    requires x in s
    ensures k < |s| && s[k] == x
  {
    if s[0] == x then 0 else 1 + IndexOf(s[1..], x)
  }

  /** First position of the sample that is not in the set. */
  function Odd(s: seq<nat>, rest: set<nat>): (k: nat)
    ensures k <= |s| && forall j | 0 <= j < k :: s[j] in rest
    ensures k < |s| ==> s[k] !in rest
  {
    if s == [] || s[0] !in rest then 0 else 1 + Odd(s[1..], rest)
  }

  /** Which draws of the next item to look at: all, those that replace, those that do not, those that spare p, the one that takes out the odd position. */
  datatype Rule = Any | Replacing | Passing | Sparing(p: nat) | Giving(rest: set<nat>)

  function Good(r: Rule, size: nat, m: nat, o: Outcome): set<nat> {
    match r
    case Any => Below(size + m + 1)
    case Replacing => Below(size)
    case Passing => Below(size + m + 1) - Below(size)
    case Sparing(p) => if p in Chosen(size, o) then Below(size + m + 1) - {IndexOf(Chosen(size, o), p)} else {}
    case Giving(rest) => {Odd(Chosen(size, o), rest)}
  }

  /** Every outcome of the set, continued by every draw that is good for it. */
  function Extend(s: set<Outcome>, r: Rule, size: nat, m: nat): set<Outcome> {
    set o, i | o in s && i in Good(r, size, m, o) :: Draw(o, i)
  }

  lemma {:induction false} OneExtended(o: Outcome, draws: set<nat>)
    ensures |(set i | i in draws :: Draw(o, i))| == |draws|
  {
    if draws != {} {
      var i :| i in draws;
      OneExtended(o, draws - {i});
      assert (set j | j in draws :: Draw(o, j)) == (set j | j in draws - {i} :: Draw(o, j)) + {Draw(o, i)};
    }
  }

  lemma UnionSize(all: set<Outcome>, rest: set<Outcome>, own: set<Outcome>)
    requires all == rest + own && rest !! own
    ensures |all| == |rest| + |own|
  {
  }

  lemma ExtendSplit(s: set<Outcome>, o: Outcome, r: Rule, size: nat, m: nat)
    requires o in s
    ensures |Extend(s, r, size, m)| == |Extend(s - {o}, r, size, m)| + |Good(r, size, m, o)|
  {
    var draws := Good(r, size, m, o);
    var all, rest, own := Extend(s, r, size, m), Extend(s - {o}, r, size, m), set i | i in draws :: Draw(o, i);
    OneExtended(o, draws);
    forall x
      ensures x in all <==> x in rest || x in own
      ensures x in own ==> x !in rest
    {
      if x.Draw? && x.before == o {
        assert x in own <==> x.index in draws;
      }
    }
    UnionSize(all, rest, own);
  }

  lemma OneMore(a: nat, g: nat)
    ensures (a + 1) * g == a * g + g
  {
  }

  ghost predicate AllHave(s: set<Outcome>, r: Rule, size: nat, m: nat, g: nat) {
    forall o | o in s :: |Good(r, size, m, o)| == g
  }

  /** With g good draws for each, there are g times as many. */
  lemma {:induction false} ExtendSize(s: set<Outcome>, r: Rule, size: nat, m: nat, g: nat)
    requires AllHave(s, r, size, m, g)
    ensures |Extend(s, r, size, m)| == |s| * g
  {
    if s == {} {
      assert Extend(s, r, size, m) == {};
    } else {
      var o :| o in s;
      var rest := s - {o};
      assert |s| == |rest| + 1;
      ExtendSize(rest, r, size, m, g);
      ExtendSplit(s, o, r, size, m);
      OneMore(|rest|, g);
    }
  }

  /** All the ways m draws can go. */
  function Outcomes(m: nat, size: nat): set<Outcome> {
    if m == 0 then {Start} else Extend(Outcomes(m - 1, size), Any, size, m - 1)
  }

  lemma {:induction false} OutcomesAreInRange(m: nat, draws: seq<nat>, size: nat)
    requires |draws| == m
    ensures OutcomeOf(draws) in Outcomes(m, size) <==> InRange(size, draws)
  {
    if m > 0 {
      var k: nat :| m == k + 1;
      OutcomesAreInRange(k, draws[..k], size);
      LastInRange(k, draws, size);
    }
  }

  lemma LastInRange(k: nat, draws: seq<nat>, size: nat)
    requires |draws| == k + 1
    ensures OutcomeOf(draws) == Draw(OutcomeOf(draws[..k]), draws[k])
    ensures InRange(size, draws) <==> InRange(size, draws[..k]) && draws[k] in Below(size + k + 1)
  {
  }

  lemma {:induction false} OutcomesHaveLength(m: nat, size: nat)
    ensures forall o | o in Outcomes(m, size) :: Length(o) == m
  {
    if m > 0 {
      OutcomesHaveLength(m - 1, size);
    }
  }

  /** The outcomes in which position p is in the sample. */
  ghost function Kept(m: nat, size: nat, p: nat): set<Outcome> {
    set o | o in Outcomes(m, size) && p in Chosen(size, o)
  }

  lemma NewIsChosen(m: nat, size: nat, p: nat, o: Outcome, i: nat)
    requires p == size + m && Length(o) == m && i < size + m + 1
    ensures p in Chosen(size, Draw(o, i)) <==> i in Below(size)
  {
    ChosenAreDistinct(size, o);
    var t := Chosen(size, Draw(o, i));
    assert i < size ==> t[i] == p;
  }

  lemma NewIsKept(m: nat, size: nat, p: nat)
    requires p == size + m
    ensures Kept(m + 1, size, p) == Extend(Outcomes(m, size), Replacing, size, m)
  {
    var outcomes := Outcomes(m, size);
    OutcomesHaveLength(m, size);
    forall x: Outcome
      ensures x in Kept(m + 1, size, p) <==> x in Extend(outcomes, Replacing, size, m)
    {
      if x.Draw? && x.before in outcomes && x.index < size + m + 1 {
        NewIsChosen(m, size, p, x.before, x.index);
      }
    }
  }

  lemma OldIsSpared(size: nat, m: nat, p: nat, o: Outcome, i: nat)
    requires Length(o) == m && p < size + m && i < size + m + 1
    ensures p in Chosen(size, Draw(o, i)) <==> i in Good(Sparing(p), size, m, o)
  {
    var s, t := Chosen(size, o), Chosen(size, Draw(o, i));
    ChosenAreDistinct(size, o);
    if p in s {
      var k := IndexOf(s, p);
      if i != k {
        assert t[k] == p;
      }
    }
  }

  lemma OldIsKept(m: nat, size: nat, p: nat)
    requires p < size + m
    ensures Kept(m + 1, size, p) == Extend(Kept(m, size, p), Sparing(p), size, m)
  {
    OutcomesHaveLength(m, size);
    forall o, i | o in Outcomes(m, size) && i in Below(size + m + 1)
      ensures p in Chosen(size, Draw(o, i)) <==> i in Good(Sparing(p), size, m, o)
    {
      OldIsSpared(size, m, p, o, i);
    }
  }

  lemma SparingLeaves(size: nat, m: nat, p: nat, o: Outcome)
    requires p in Chosen(size, o)
    ensures |Good(Sparing(p), size, m, o)| == size + m
  {
    var k := IndexOf(Chosen(size, o), p);
    assert k in Below(size + m + 1);
  }

  lemma OutcomesCount(m: nat, size: nat)
    ensures |Outcomes(m + 1, size)| == |Outcomes(m, size)| * (size + m + 1)
  {
    var all := Outcomes(m, size);
    assert AllHave(all, Any, size, m, size + m + 1);
    ExtendSize(all, Any, size, m, size + m + 1);
  }

  lemma NewCount(m: nat, size: nat, p: nat)
    requires p == size + m
    ensures |Kept(m + 1, size, p)| == |Outcomes(m, size)| * size
  {
    var all := Outcomes(m, size);
    NewIsKept(m, size, p);
    assert AllHave(all, Replacing, size, m, size);
    ExtendSize(all, Replacing, size, m, size);
  }

  lemma OldCount(m: nat, size: nat, p: nat)
    requires p < size + m
    ensures |Kept(m + 1, size, p)| == |Kept(m, size, p)| * (size + m)
  {
    var kept := Kept(m, size, p);
    OldIsKept(m, size, p);
    AllSpare(size, m, p, kept);
    ExtendSize(kept, Sparing(p), size, m, size + m);
  }

  lemma AllSpare(size: nat, m: nat, p: nat, kept: set<Outcome>)
    requires forall o | o in kept :: p in Chosen(size, o)
    ensures AllHave(kept, Sparing(p), size, m, size + m)
  {
    forall o | o in kept
      ensures |Good(Sparing(p), size, m, o)| == size + m
    {
      SparingLeaves(size, m, p, o);
    }
  }

  function Times(a: nat, b: nat): nat {
    if b == 0 then 0 else Times(a, b - 1) + a
  }

  lemma {:induction false} TimesIsProduct(a: nat, b: nat)
    ensures Times(a, b) == a * b
  {
    if b > 0 {
      TimesIsProduct(a, b - 1);
    }
  }

  /** So many of all the outcomes are size in n. */
  ghost predicate Share(kept: nat, all: nat, size: nat, n: nat) {
    Times(kept, n) == Times(size, all)
  }

  lemma ShareIsProduct(kept: nat, all: nat, size: nat, n: nat)
    ensures Share(kept, all, size, n) <==> kept * n == size * all
  {
    TimesIsProduct(kept, n);
    TimesIsProduct(size, all);
  }

  lemma NewHasShare(m: nat, size: nat, p: nat)
    requires p == size + m
    ensures Share(|Kept(m + 1, size, p)|, |Outcomes(m + 1, size)|, size, p + 1)
  {
    OutcomesCount(m, size);
    NewCount(m, size, p);
    NewShare(|Kept(m + 1, size, p)|, |Outcomes(m, size)|, |Outcomes(m + 1, size)|, size, p + 1);
  }

  lemma OldKeepsShare(m: nat, size: nat, p: nat)
    requires p < size + m && Share(|Kept(m, size, p)|, |Outcomes(m, size)|, size, size + m)
    ensures Share(|Kept(m + 1, size, p)|, |Outcomes(m + 1, size)|, size, size + m + 1)
  {
    var next, kept, before, all := |Kept(m + 1, size, p)|, |Kept(m, size, p)|, |Outcomes(m, size)|, |Outcomes(m + 1, size)|;
    OutcomesCount(m, size);
    OldCount(m, size, p);
    OldShare(next, kept, before, all, size, size + m + 1);
  }

  /** Position p is in the sample in size of every n outcomes, where n = size + m items have come. */
  ghost predicate HasShare(m: nat, size: nat, p: nat) {
    Share(|Kept(m, size, p)|, |Outcomes(m, size)|, size, size + m)
  }

  lemma NextHasShare(m: nat, size: nat, p: nat)
    requires p <= size + m && (p < size + m ==> HasShare(m, size, p))
    ensures HasShare(m + 1, size, p)
  {
    if p == size + m {
      NewHasShare(m, size, p);
    } else {
      OldKeepsShare(m, size, p);
    }
  }

  lemma {:induction false} ShareStays(k: nat, m: nat, size: nat, p: nat)
    requires k <= m && p < size + k && HasShare(k, size, p)
    ensures HasShare(m, size, p)
    decreases m - k
  {
    if k < m {
      NextHasShare(k, size, p);
      ShareStays(k + 1, m, size, p);
    }
  }

  lemma EarlyShare(m: nat, size: nat, p: nat)
    requires p < size
    ensures HasShare(m, size, p)
  {
    StartKeepsAll(size, p);
    ShareStays(0, m, size, p);
  }

  lemma LateShare(m: nat, size: nat, k: nat, p: nat)
    requires k < m && p == size + k
    ensures HasShare(m, size, p)
  {
    NextHasShare(k, size, p);
    ShareStays(k + 1, m, size, p);
  }

  /** Each position is kept in exactly size / n of the outcomes, for every stream of n = size + m items. */
  lemma EachPositionIsKeptEquallyOften(m: nat, size: nat, p: nat)
    requires p < size + m
    ensures |Kept(m, size, p)| * (size + m) == size * |Outcomes(m, size)|
  {
    if p < size {
      EarlyShare(m, size, p);
    } else {
      var k: nat :| p == size + k;
      LateShare(m, size, k, p);
    }
    ShareIsProduct(|Kept(m, size, p)|, |Outcomes(m, size)|, size, size + m);
  }

  lemma StartKeepsAll(size: nat, p: nat)
    requires p < size
    ensures HasShare(0, size, p)
  {
    assert Chosen(size, Start)[p] == p;
    assert Kept(0, size, p) == {Start};
    ShareIsProduct(1, 1, size, size);
  }

  lemma NewShare(kept: nat, before: nat, all: nat, size: nat, n: nat)
    requires kept == before * size && all == before * n
    ensures Share(kept, all, size, n)
  {
    assert before * size * n == size * (before * n);
    ShareIsProduct(kept, all, size, n);
  }

  lemma OldShare(kept: nat, was: nat, before: nat, all: nat, size: nat, n: nat)
    requires n >= 1 && Share(was, before, size, n - 1) && kept == was * (n - 1) && all == before * n
    ensures Share(kept, all, size, n)
  {
    ShareIsProduct(was, before, size, n - 1);
    assert size * before * n == size * (before * n);
    ShareIsProduct(kept, all, size, n);
  }

  // ----- Every sample is as likely as any other

  function ToSet(s: seq<nat>): set<nat> {
    set p | p in s
  }

  function SampleSet(size: nat, o: Outcome): set<nat> {
    ToSet(Chosen(size, o))
  }

  function Factorial(m: nat): nat {
    if m == 0 then 1 else Factorial(m - 1) * m
  }

  /** The outcomes whose sample is exactly this set of positions. */
  ghost function Exactly(m: nat, size: nat, sample: set<nat>): set<Outcome> {
    set o | o in Outcomes(m, size) && SampleSet(size, o) == sample
  }

  lemma {:induction false} DistinctSetSize(s: seq<nat>)
    requires forall i, j | 0 <= i < j < |s| :: s[i] != s[j]
    ensures |ToSet(s)| == |s|
  {
    if s != [] {
      DistinctSetSize(s[1..]);
      assert ToSet(s) == ToSet(s[1..]) + {s[0]};
    }
  }

  lemma SampleSetSize(size: nat, o: Outcome)
    ensures |SampleSet(size, o)| == size
    ensures forall p | p in SampleSet(size, o) :: p < size + Length(o)
  {
    ChosenAreDistinct(size, o);
    DistinctSetSize(Chosen(size, o));
  }

  /** What a draw does to the sample. */
  lemma SampleAfter(size: nat, o: Outcome, i: nat)
    ensures
      SampleSet(size, Draw(o, i))
      == if i < size then SampleSet(size, o) - {Chosen(size, o)[i]} + {size + Length(o)} else SampleSet(size, o)
  {
    var s, t := Chosen(size, o), Chosen(size, Draw(o, i));
    ChosenAreDistinct(size, o);
    if i < size {
      forall p
        ensures p in t <==> (p in s && p != s[i]) || p == size + Length(o)
      {
        if p in t && p != size + Length(o) {
          var k :| 0 <= k < size && t[k] == p;
          assert s[k] == p;
        }
        if p in s && p != s[i] {
          var k :| 0 <= k < size && s[k] == p;
          assert t[k] == p;
        }
        assert t[i] == size + Length(o);
      }
    }
  }

  /** A sample without the new item comes from the same sample, when the draw passes the new item over. */
  lemma WithoutNew(m: nat, size: nat, sample: set<nat>)
    requires size + m !in sample
    ensures |Exactly(m + 1, size, sample)| == |Exactly(m, size, sample)| * (m + 1)
  {
    var before := Exactly(m, size, sample);
    PassedOver(m, size, sample, before);
    PassingCount(size, m, before);
    ExtendSize(before, Passing, size, m, m + 1);
  }

  lemma PassedOver(m: nat, size: nat, sample: set<nat>, before: set<Outcome>)
    requires size + m !in sample && before == Exactly(m, size, sample)
    ensures Exactly(m + 1, size, sample) == Extend(before, Passing, size, m)
  {
    forall x: Outcome
      ensures x in Exactly(m + 1, size, sample) <==> x in Extend(before, Passing, size, m)
    {
      PassedOverAt(m, size, sample, x);
    }
  }

  lemma KeptWhenPassed(n: nat, size: nat, sample: set<nat>, o: Outcome, i: nat)
    requires n == size + Length(o) && n !in sample
    ensures SampleSet(size, Draw(o, i)) == sample <==> SampleSet(size, o) == sample && i >= size
  {
    SampleAfter(size, o, i);
    SampleSetSize(size, o);
  }

  lemma PassedOverAt(m: nat, size: nat, sample: set<nat>, x: Outcome)
    requires size + m !in sample
    ensures x in Exactly(m + 1, size, sample) <==> x in Extend(Exactly(m, size, sample), Passing, size, m)
  {
    OutcomesHaveLength(m, size);
    if x.Draw? && x.before in Outcomes(m, size) {
      KeptWhenPassed(size + m, size, sample, x.before, x.index);
    }
  }

  lemma PassingCount(size: nat, m: nat, before: set<Outcome>)
    ensures AllHave(before, Passing, size, m, m + 1)
  {
    assert Below(size) <= Below(size + m + 1);
    assert |Below(size + m + 1) - Below(size)| == m + 1;
  }

  /** The outcomes whose sample contains these. */
  ghost function Containing(m: nat, size: nat, rest: set<nat>): set<Outcome> {
    set o | o in Outcomes(m, size) && rest <= SampleSet(size, o)
  }

  lemma OddIsTheOther(size: nat, o: Outcome, rest: set<nat>)
    requires |rest| + 1 == size && rest <= SampleSet(size, o)
    ensures Odd(Chosen(size, o), rest) < size
    ensures SampleSet(size, o) - {Chosen(size, o)[Odd(Chosen(size, o), rest)]} == rest
  {
    var s, k := Chosen(size, o), Odd(Chosen(size, o), rest);
    SampleSetSize(size, o);
    if k == size {
      assert SampleSet(size, o) <= rest;
      SubsetSize(SampleSet(size, o), rest);
    } else {
      assert s[k] in SampleSet(size, o);
      SameSize(rest, SampleSet(size, o) - {s[k]});
    }
  }

  lemma SubsetSize(a: set<nat>, b: set<nat>)
    requires a <= b
    ensures |a| <= |b|
  {
    assert b == a + (b - a);
  }

  lemma SameSize(a: set<nat>, b: set<nat>)
    requires a <= b && |a| == |b|
    ensures a == b
  {
    assert b == a + (b - a);
  }

  lemma OnlyOdd(size: nat, o: Outcome, rest: set<nat>, i: nat)
    requires |rest| + 1 == size && i < size
    ensures SampleSet(size, o) - {Chosen(size, o)[i]} == rest <==> rest <= SampleSet(size, o) && i == Odd(Chosen(size, o), rest)
  {
    var s, sample := Chosen(size, o), SampleSet(size, o);
    ChosenAreDistinct(size, o);
    if rest <= sample {
      OddIsTheOther(size, o, rest);
      var k := Odd(s, rest);
      if sample - {s[i]} == rest {
        assert s[k] in sample && s[k] !in rest;
      }
    }
  }

  lemma GivenOut(n: nat, size: nat, rest: set<nat>, o: Outcome, i: nat)
    requires |rest| + 1 == size && n !in rest && size + Length(o) == n && i < size
    ensures
      SampleSet(size, Draw(o, i)) == rest + {n}
      <==> rest <= SampleSet(size, o) && i == Odd(Chosen(size, o), rest)
  {
    var sample, out := SampleSet(size, o), Chosen(size, o)[i];
    SampleAfter(size, o, i);
    SampleSetSize(size, o);
    OnlyOdd(size, o, rest, i);
    TakenOut(sample, out, rest, n);
  }

  lemma PassedBy(n: nat, size: nat, rest: set<nat>, o: Outcome, i: nat)
    requires |rest| + 1 == size && size + Length(o) == n && i >= size
    ensures SampleSet(size, Draw(o, i)) != rest + {n}
    ensures rest <= SampleSet(size, o) ==> i != Odd(Chosen(size, o), rest)
  {
    SampleAfter(size, o, i);
    SampleSetSize(size, o);
    assert n in rest + {n};
    if rest <= SampleSet(size, o) {
      OddIsTheOther(size, o, rest);
    }
  }

  lemma GivenAway(m: nat, size: nat, rest: set<nat>, o: Outcome, i: nat)
    requires |rest| + 1 == size && size + m !in rest && Length(o) == m
    ensures
      SampleSet(size, Draw(o, i)) == rest + {size + m}
      <==> rest <= SampleSet(size, o) && i == Odd(Chosen(size, o), rest)
  {
    if i < size {
      GivenOut(size + m, size, rest, o, i);
    } else {
      PassedBy(size + m, size, rest, o, i);
    }
  }

  /** A sample with the new item comes from any sample that has the rest, by the one draw that takes the other out. */
  lemma WithNewAt(m: nat, size: nat, rest: set<nat>, x: Outcome)
    requires |rest| + 1 == size && forall p | p in rest :: p < size + m
    ensures x in Exactly(m + 1, size, rest + {size + m}) <==> x in Extend(Containing(m, size, rest), Giving(rest), size, m)
  {
    OutcomesHaveLength(m, size);
    if x.Draw? && x.before in Outcomes(m, size) {
      GivenAway(m, size, rest, x.before, x.index);
      if rest <= SampleSet(size, x.before) {
        OddIsTheOther(size, x.before, rest);
      }
    }
  }

  lemma TakenOut(sample: set<nat>, out: nat, rest: set<nat>, new_: nat)
    requires new_ !in sample && new_ !in rest && out in sample
    ensures sample - {out} + {new_} == rest + {new_} <==> sample - {out} == rest
  {
    assert sample - {out} == sample - {out} + {new_} - {new_};
    assert rest == rest + {new_} - {new_};
  }

  lemma WithNew(m: nat, size: nat, rest: set<nat>)
    requires |rest| + 1 == size && forall p | p in rest :: p < size + m
    ensures |Exactly(m + 1, size, rest + {size + m})| == |Containing(m, size, rest)|
  {
    var before := Containing(m, size, rest);
    forall x: Outcome
      ensures x in Exactly(m + 1, size, rest + {size + m}) <==> x in Extend(before, Giving(rest), size, m)
    {
      WithNewAt(m, size, rest, x);
    }
    assert Exactly(m + 1, size, rest + {size + m}) == Extend(before, Giving(rest), size, m);
    assert AllHave(before, Giving(rest), size, m, 1);
    ExtendSize(before, Giving(rest), size, m, 1);
  }

  /** The outcomes whose sample is the rest and one of these. */
  ghost function WithOneOf(m: nat, size: nat, rest: set<nat>, others: set<nat>): set<Outcome> {
    set o | o in Outcomes(m, size) && exists q :: q in others && SampleSet(size, o) == rest + {q}
  }

  ghost predicate EachHas(m: nat, size: nat, rest: set<nat>, others: set<nat>, f: nat) {
    forall q | q in others :: |Exactly(m, size, rest + {q})| == f
  }

  /** If every sample of that kind is as likely as f says, so many kinds are so many times as likely. */
  lemma {:induction false} OneOfMany(m: nat, size: nat, rest: set<nat>, others: set<nat>, f: nat)
    requires others !! rest
    requires EachHas(m, size, rest, others, f)
    ensures |WithOneOf(m, size, rest, others)| == |others| * f
    decreases others
  {
    if others == {} {
      assert WithOneOf(m, size, rest, others) == {};
    } else {
      var q :| q in others;
      var fewer := others - {q};
      OneOfMany(m, size, rest, fewer, f);
      OneMoreKind(m, size, rest, others, q);
      assert |others| == |fewer| + 1;
      OneMore(|fewer|, f);
    }
  }

  lemma OneMoreKind(m: nat, size: nat, rest: set<nat>, others: set<nat>, q: nat)
    requires others !! rest && q in others
    ensures |WithOneOf(m, size, rest, others)| == |WithOneOf(m, size, rest, others - {q})| + |Exactly(m, size, rest + {q})|
  {
    var all, fewer, own := WithOneOf(m, size, rest, others), WithOneOf(m, size, rest, others - {q}), Exactly(m, size, rest + {q});
    forall o | o in own
      ensures o !in fewer
    {
      forall p | p in others - {q}
        ensures rest + {p} != rest + {q}
      {
        assert p in rest + {p} && p !in rest + {q};
      }
    }
    UnionSize(all, fewer, own);
  }

  /** Containing the rest is being the rest and one more. */
  lemma ContainingIsOneOf(m: nat, size: nat, rest: set<nat>)
    requires |rest| + 1 == size
    ensures Containing(m, size, rest) == WithOneOf(m, size, rest, Below(size + m) - rest)
  {
    OutcomesHaveLength(m, size);
    forall o | o in Outcomes(m, size)
      ensures rest <= SampleSet(size, o) <==> exists q :: q in Below(size + m) - rest && SampleSet(size, o) == rest + {q}
    {
      SampleSetSize(size, o);
      if rest <= SampleSet(size, o) {
        OddIsTheOther(size, o, rest);
        var q := Chosen(size, o)[Odd(Chosen(size, o), rest)];
        assert q in SampleSet(size, o);
        assert q in Below(size + m) - rest && SampleSet(size, o) == rest + {q};
      }
    }
  }

  /** Every set of size positions is the sample in equally many outcomes: the factorial of the number of draws. */
  lemma {:induction false} EverySampleIsEquallyLikely(m: nat, size: nat, sample: set<nat>)
    requires |sample| == size && forall p | p in sample :: p < size + m
    ensures |Exactly(m, size, sample)| == Factorial(m)
    decreases m, 1
  {
    if m == 0 {
      StartIsTheSample(size, sample);
    } else {
      var k: nat :| m == k + 1;
      if size + k in sample {
        NewSample(k, size, sample);
      } else {
        EverySampleIsEquallyLikely(k, size, sample);
        WithoutNew(k, size, sample);
      }
    }
  }

  lemma StartIsTheSample(size: nat, sample: set<nat>)
    requires |sample| == size && forall p | p in sample :: p < size
    ensures |Exactly(0, size, sample)| == 1
  {
    SampleSetSize(size, Start);
    SameSize(sample, Below(size));
    assert SampleSet(size, Start) <= Below(size);
    SameSize(SampleSet(size, Start), Below(size));
    assert Exactly(0, size, sample) == {Start};
  }

  lemma Others(m: nat, size: nat, rest: set<nat>)
    requires |rest| + 1 == size && forall p | p in rest :: p < size + m
    ensures |Below(size + m) - rest| == m + 1
  {
    assert rest <= Below(size + m);
  }

  lemma NewSample(m: nat, size: nat, sample: set<nat>)
    requires |sample| == size && (forall p | p in sample :: p < size + m + 1) && size + m in sample
    ensures |Exactly(m + 1, size, sample)| == Factorial(m + 1)
    decreases m + 1, 0
  {
    var rest := sample - {size + m};
    assert sample == rest + {size + m};
    WithNew(m, size, rest);
    ContainingCount(m, size, rest);
  }

  lemma EachOtherHas(m: nat, size: nat, rest: set<nat>, others: set<nat>)
    requires |rest| + 1 == size && forall p | p in rest :: p < size + m
    requires others !! rest && forall q | q in others :: q < size + m
    ensures EachHas(m, size, rest, others, Factorial(m))
    decreases m, 2
  {
    forall q | q in others
      ensures |Exactly(m, size, rest + {q})| == Factorial(m)
    {
      EverySampleIsEquallyLikely(m, size, rest + {q});
    }
  }

  lemma ContainingCount(m: nat, size: nat, rest: set<nat>)
    requires |rest| + 1 == size && forall p | p in rest :: p < size + m
    ensures |Containing(m, size, rest)| == Factorial(m) * (m + 1)
    decreases m, 3
  {
    var others, f := Below(size + m) - rest, Factorial(m);
    Others(m, size, rest);
    EachOtherHas(m, size, rest, others);
    ContainingIsOneOf(m, size, rest);
    OneOfMany(m, size, rest, others, f);
    Commute(m + 1, f);
  }

  lemma Commute(a: nat, b: nat)
    ensures a * b == b * a
  {
  }
}
