/** What later reads of a file add to the first one: where they land, and how much is covered, new or skipped over. */
module FollowUps {
  import opened Wrappers
  import opened Intervals

  datatype Place = Inside | GapAbove | GapBelow | Forward | Backward | Both

  /** Where a later read lands, by comparing bounds. */
  function ClassifyFollowup(f: Interval, init: Interval): Place {
    if f.lo >= init.lo && f.hi <= init.hi then Inside
    else if f.lo > init.hi + 1 then GapAbove
    else if f.hi < init.lo - 1 then GapBelow
    else if f.hi > init.hi && f.lo >= init.lo then Forward
    else if f.lo < init.lo && f.hi <= init.hi then Backward
    else Both
  }

  /** It reads a line below, or above, all of the first read. */
  ghost predicate ReadsBefore(f: Interval, init: Interval) {
    exists n :: Has(f, n) && n < init.lo
  }

  ghost predicate ReadsAfter(f: Interval, init: Interval) {
    exists n :: Has(f, n) && n > init.hi
  }

  /** What the place says of the lines: apart when merging leaves two regions, else by the sides on which it brings new lines. */
  ghost function PlaceOf(f: Interval, init: Interval): Place {
    if |Merged([init, f])| > 1 then if ReadsAfter(f, init) then GapAbove else GapBelow
    else if ReadsBefore(f, init) then if ReadsAfter(f, init) then Both else Backward
    else if ReadsAfter(f, init) then Forward
    else Inside
  }

  lemma MergedPair(a: Interval, b: Interval)
    ensures
      Merged([a, b])
      == if Before(a, b) then (if b.lo <= a.hi + 1 then [Interval(a.lo, Max(a.hi, b.hi))] else [a, b])
         else if a.lo <= b.hi + 1 then [Interval(b.lo, Max(b.hi, a.hi))]
         else [b, a]
  {
    assert Sort([b]) == [b] by {
      assert [b][1..] == [];
    }
    assert [a, b][1..] == [b];
    assert Sort([a, b]) == Insert([b], a);
    assert [b] + Insert([], a) == [b, a] && [a] + [b] == [a, b];
    assert [a, b][1..] == [b] && [b, a][1..] == [a];
    FoldOne(a, b);
    FoldOne(b, a);
  }

  lemma FoldOne(a: Interval, b: Interval)
    ensures Fold(a, [b]) == if b.lo <= a.hi + 1 then [Interval(a.lo, Max(a.hi, b.hi))] else [a, b]
  {
    assert [b][1..] == [];
  }

  /** It ends more than one line before it starts. */
  predicate Reversed(r: Interval) {
    r.hi + 1 < r.lo
  }

  /** A later read without lines is placed right: it starts no further than just after the first read, and not where that starts unless it is merely empty. */
  predicate StartsWithin(f: Interval, init: Interval) {
    f.lo <= init.hi + 1 && !(f.lo == init.lo && Reversed(f))
  }

  /** A first read that ends before it starts leaves a hole between its bounds: the later read stays below it, or touches or passes its far side. */
  predicate ClearsHole(f: Interval, init: Interval) {
    if f.lo > init.hi + 1 then f.lo >= init.lo || f.hi + 1 < init.lo else f.hi <= init.hi || f.hi + 1 >= init.lo
  }

  /** When the comparison of bounds says what the lines say, for any two ranges: always, if the later one has lines and the first is not reversed. */
  lemma ClassifyIsPlace(f: Interval, init: Interval)
    ensures ClassifyFollowup(f, init) == PlaceOf(f, init) <==>
            if f.lo > f.hi then StartsWithin(f, init) else Reversed(init) ==> ClearsHole(f, init)
  {
    MergedPair(init, f);
    if f.lo <= f.hi {
      assert Has(f, f.lo) && Has(f, f.hi);
    } else {
      assert !ReadsBefore(f, init) && !ReadsAfter(f, init);
    }
  }

  // ----- All the reads of a file

  datatype Kind = Range | Default | Raw | Conflicts

  datatype Read = Read(kind: Kind, bounds: Option<Interval>)

  datatype Coverage = Coverage(regions: nat, covered: int, span: int, gapLines: int, extraLines: int)

  datatype Analysis = Analysis(coverage: Coverage, positions: multiset<Place>, firstPosition: Option<Place>)

  /** Only these reads have lines that are known. */
  predicate IsKnown(c: Read) {
    (c.kind == Range || c.kind == Default) && c.bounds.Some?
  }

  function KnownRanges(calls: seq<Read>): seq<Interval> {
    if calls == [] then []
    else
      var c := calls[|calls| - 1];
      KnownRanges(calls[..|calls| - 1]) + if IsKnown(c) then [c.bounds.value] else []
  }

  function Places(init: Interval, followups: seq<Interval>): multiset<Place> {
    if followups == [] then multiset{}
    else Places(init, followups[..|followups| - 1]) + multiset{ClassifyFollowup(followups[|followups| - 1], init)}
  }

  function CoverageOf(init: Interval, merged: seq<Interval>): Coverage
    requires merged != []
  {
    var covered := Size(merged);
    var span := merged[|merged| - 1].hi - merged[0].lo + 1;
    Coverage(|merged|, covered, span, span - covered, Max(0, covered - (init.hi - init.lo + 1)))
  }

  lemma MergedIsNotEmpty(ivs: seq<Interval>)
    requires ivs != []
    ensures Merged(ivs) != []
  {
    SortedIsEmpty(ivs);
    FoldIsNotEmpty(Sort(ivs)[0], Sort(ivs)[1..]);
  }

  lemma {:induction false} FoldIsNotEmpty(last: Interval, rest: seq<Interval>)
    ensures Fold(last, rest) != []
    decreases |rest|
  {
    if rest != [] {
      FoldIsNotEmpty(Interval(last.lo, Max(last.hi, rest[0].hi)), rest[1..]);
    }
  }

  function AnalysisOf(init: Interval, followups: seq<Interval>): Analysis {
    MergedIsNotEmpty([init] + followups);
    Analysis(
      CoverageOf(init, Merged([init] + followups)),
      Places(init, followups),
      if followups == [] then None else Some(ClassifyFollowup(followups[0], init)))
  }

  /** Groups whose first read is not a range are left out. */
  method Analyze(calls: seq<Read>) returns (a: Option<Analysis>)
    requires calls != []
    ensures
      a == if calls[0].kind == Range && calls[0].bounds.Some? then Some(AnalysisOf(calls[0].bounds.value, KnownRanges(calls[1..])))
           else None
  {
    if calls[0].kind != Range || calls[0].bounds.None? {
      return None;
    }
    var init := calls[0].bounds.value;
    var followups, positions, firstPosition := CollectFollowups(init, calls[1..]);
    MergedIsNotEmpty([init] + followups);
    var merged := Merge([init] + followups);
    a := Some(Analysis(CoverageOf(init, merged), positions, firstPosition));
  }

  method CollectFollowups(init: Interval, calls: seq<Read>)
    returns (followups: seq<Interval>, positions: multiset<Place>, firstPosition: Option<Place>)
    ensures followups == KnownRanges(calls) && positions == Places(init, followups)
    ensures firstPosition == if followups == [] then None else Some(ClassifyFollowup(followups[0], init))
  {
    followups, positions, firstPosition := [], multiset{}, None;
    for i := 0 to |calls|
      invariant followups == KnownRanges(calls[..i]) && positions == Places(init, followups)
      invariant firstPosition == if followups == [] then None else Some(ClassifyFollowup(followups[0], init))
    {
      var c := calls[i];
      assert calls[..i + 1][..i] == calls[..i];
      if IsKnown(c) {
        var pos := ClassifyFollowup(c.bounds.value, init);
        positions := positions + multiset{pos};
        if firstPosition.None? {
          firstPosition := Some(pos);
        }
        assert (followups + [c.bounds.value])[..|followups|] == followups;
        followups := followups + [c.bounds.value];
      }
    }
    assert calls[..|calls|] == calls;
  }

  /** Each later read with known lines has its place. */
  lemma {:induction false} PlacesAreCounted(init: Interval, followups: seq<Interval>, p: Place)
    ensures |Places(init, followups)| == |followups|
    ensures p in Places(init, followups) <==> exists i :: 0 <= i < |followups| && ClassifyFollowup(followups[i], init) == p
  {
    if followups != [] {
      var rest := followups[..|followups| - 1];
      PlacesAreCounted(init, rest, p);
      assert forall i | 0 <= i < |rest| :: followups[i] == rest[i];
    }
  }

  // ----- When lines are counted right

  /** Something earlier comes up to where r starts. */
  predicate Reached(all: seq<Interval>, r: Interval) {
    exists v :: v in all && v.lo < r.lo <= v.hi + 1
  }

  /** Every reversed range is swallowed by something earlier. */
  predicate AllReached(all: seq<Interval>) {
    forall r | r in all && Reversed(r) :: Reached(all, r)
  }

  /** Sorted, with any gap between one and all later ones; a reversed range may stand among them. */
  predicate Apart(ivs: seq<Interval>) {
    ivs != [] ==>
      && (forall j | 1 <= j < |ivs| :: ivs[0].hi + 1 < ivs[j].lo && ivs[0].lo <= ivs[j].lo)
      && Apart(ivs[1..])
  }

  lemma {:induction false} FoldIsApart(last: Interval, rest: seq<Interval>)
    requires SortedAfter(last, rest)
    ensures Apart(Fold(last, rest))
    ensures forall x | x in Fold(last, rest) :: x.lo >= last.lo
    decreases |rest|
  {
    if rest == [] {
      assert [last][1..] == [];
    } else if rest[0].lo <= last.hi + 1 {
      FoldIsApart(Interval(last.lo, Max(last.hi, rest[0].hi)), rest[1..]);
    } else {
      var more := Fold(rest[0], rest[1..]);
      FoldIsApart(rest[0], rest[1..]);
      assert ([last] + more)[1..] == more;
      forall j | 1 <= j < |more| + 1
        ensures last.hi + 1 < ([last] + more)[j].lo && last.lo <= ([last] + more)[j].lo
      {
        assert more[j - 1] in more;
      }
    }
  }

  /** By how many lines a reversed range ends too early. */
  function Owes(r: Interval): nat {
    if Reversed(r) then r.lo - r.hi - 1 else 0
  }

  /** What reversed ranges take away from the sum of the lengths. */
  function Debt(ivs: seq<Interval>): nat {
    if ivs == [] then 0 else Owes(ivs[0]) + Debt(ivs[1..])
  }

  /** What the ranges of a list owe that nothing comes up to. */
  function Owed(ivs: seq<Interval>, all: seq<Interval>): nat {
    if ivs == [] then 0 else (if Reached(all, ivs[0]) then 0 else Owes(ivs[0])) + Owed(ivs[1..], all)
  }

  lemma {:induction false} NothingOwed(ivs: seq<Interval>, all: seq<Interval>)
    ensures Owed(ivs, all) == 0 <==> forall r | r in ivs && Reversed(r) :: Reached(all, r)
    ensures forall r | r in ivs && !Reached(all, r) :: Owed(ivs, all) >= Owes(r)
  {
    if ivs != [] {
      NothingOwed(ivs[1..], all);
      assert ivs == [ivs[0]] + ivs[1..];
    }
  }

  lemma {:induction false} ApartStarts(ivs: seq<Interval>, bound: int, n: int)
    requires (forall j | 0 <= j < |ivs| :: bound < ivs[j].lo) && Covers(ivs, n)
    ensures n > bound
  {
    if !Has(ivs[0], n) {
      ApartStarts(ivs[1..], bound, n);
    }
  }

  lemma {:induction false} SizeAndDebt(ivs: seq<Interval>)
    requires Apart(ivs)
    ensures Size(ivs) + Debt(ivs) == |Lines(ivs)|
  {
    if ivs != [] {
      SizeAndDebt(ivs[1..]);
      var first, rest := LinesIn(ivs[0].lo, ivs[0].hi), Lines(ivs[1..]);
      forall n | n in rest
        ensures n !in first
      {
        ApartStarts(ivs[1..], ivs[0].hi + 1, n);
      }
      assert first !! rest;
    }
  }

  /** A reversed range that stands first stays, and no later one starts with it. */
  predicate FirstOf(last: Interval, rest: seq<Interval>) {
    SortedAfter(last, rest) && (!Reversed(last) ==> forall x | x in rest && Reversed(x) :: last.lo < x.lo)
  }

  lemma NextFirst(last: Interval, rest: seq<Interval>)
    requires FirstOf(last, rest) && rest != []
    ensures rest[0].lo <= last.hi + 1 ==> FirstOf(Interval(last.lo, Max(last.hi, rest[0].hi)), rest[1..])
    ensures rest[0].lo > last.hi + 1 ==> FirstOf(rest[0], rest[1..])
  {
    assert forall x | x in rest[1..] :: x in rest && Before(rest[0], x);
  }

  lemma {:induction false} SameOwed(ivs: seq<Interval>, a: seq<Interval>, b: seq<Interval>)
    requires forall r | r in ivs && Reversed(r) :: Reached(a, r) <==> Reached(b, r)
    ensures Owed(ivs, a) == Owed(ivs, b)
  {
    if ivs != [] {
      assert ivs[0] in ivs;
      assert forall r | r in ivs[1..] :: r in ivs;
      SameOwed(ivs[1..], a, b);
    }
  }

  lemma OwedCons(first: Interval, rest: seq<Interval>, all: seq<Interval>)
    ensures Owed([first] + rest, all) == (if Reached(all, first) then 0 else Owes(first)) + Owed(rest, all)
  {
    assert ([first] + rest)[1..] == rest;
  }

  /** Folding leaves standing what nothing comes up to: the debt of the result is what the ranges owe. */
  lemma {:induction false} FoldOwes(last: Interval, rest: seq<Interval>)
    requires FirstOf(last, rest)
    ensures Debt(Fold(last, rest)) == Owed([last] + rest, [last] + rest)
    decreases |rest|
  {
    var all := [last] + rest;
    OwedCons(last, rest, all);
    if rest == [] {
      assert [last][1..] == [];
    } else {
      NextFirst(last, rest);
      assert [rest[0]] + rest[1..] == rest;
      if rest[0].lo <= last.hi + 1 {
        var grown := Interval(last.lo, Max(last.hi, rest[0].hi));
        FoldOwes(grown, rest[1..]);
        OwedCons(grown, rest[1..], [grown] + rest[1..]);
        OwedCons(rest[0], rest[1..], all);
        GrownOwes(last, rest, grown);
      } else {
        FoldOwes(rest[0], rest[1..]);
        assert ([last] + Fold(rest[0], rest[1..]))[1..] == Fold(rest[0], rest[1..]);
        AloneOwes(last, rest);
      }
    }
  }

  lemma AloneOwes(last: Interval, rest: seq<Interval>)
    requires FirstOf(last, rest) && rest != [] && rest[0].lo > last.hi + 1
    ensures Owed(rest, [last] + rest) == Owed(rest, rest)
    ensures Reversed(last) ==> !Reached([last] + rest, last)
  {
    forall r | Reversed(r) && (r == last || r in rest)
      ensures r == last ==> !Reached([last] + rest, r)
      ensures r in rest ==> (Reached([last] + rest, r) <==> Reached(rest, r))
    {
      StandsAlone(last, rest, r);
    }
    SameOwed(rest, [last] + rest, rest);
  }

  lemma GrownOwes(last: Interval, rest: seq<Interval>, grown: Interval)
    requires FirstOf(last, rest) && rest != [] && rest[0].lo <= last.hi + 1
    requires grown == Interval(last.lo, Max(last.hi, rest[0].hi))
    ensures Owed(rest[1..], [grown] + rest[1..]) == Owed(rest[1..], [last] + rest)
    ensures !Reversed(last) && !Reversed(grown)
    ensures Reversed(rest[0]) ==> Reached([last] + rest, rest[0])
  {
    forall r | Reversed(r) && r in rest[1..]
      ensures Reached([grown] + rest[1..], r) <==> Reached([last] + rest, r)
    {
      GrownReaches(last, rest, grown, r);
    }
    SameOwed(rest[1..], [grown] + rest[1..], [last] + rest);
    if Reversed(rest[0]) {
      assert rest[0] in rest && last in [last] + rest;
    }
  }

  lemma StandsAlone(last: Interval, rest: seq<Interval>, r: Interval)
    requires FirstOf(last, rest) && rest != [] && rest[0].lo > last.hi + 1 && Reversed(r)
    ensures r == last ==> !Reached([last] + rest, r)
    ensures r in rest ==> (Reached([last] + rest, r) <==> Reached(rest, r))
  {
    assert forall x | x in rest :: rest[0].lo <= x.lo && last.lo <= x.lo;
    assert forall v :: v in [last] + rest <==> v == last || v in rest;
    if r in rest && Reached([last] + rest, r) {
      var v :| v in [last] + rest && v.lo < r.lo <= v.hi + 1;
      assert v in rest;
    }
  }

  lemma GrownReaches(last: Interval, rest: seq<Interval>, grown: Interval, r: Interval)
    requires FirstOf(last, rest) && rest != [] && rest[0].lo <= last.hi + 1 && Reversed(r) && r in rest[1..]
    requires grown == Interval(last.lo, Max(last.hi, rest[0].hi))
    ensures Reached([grown] + rest[1..], r) <==> Reached([last] + rest, r)
  {
    assert rest == [rest[0]] + rest[1..];
    assert rest[0] in rest;
    assert Before(rest[0], r) && (r.lo <= rest[0].hi + 1 ==> rest[0].lo < r.lo);
    if Reached([last] + rest, r) {
      var v :| v in [last] + rest && v.lo < r.lo <= v.hi + 1;
      assert (if v == last || v == rest[0] then grown else v) in [grown] + rest[1..];
    }
    if Reached([grown] + rest[1..], r) {
      var v :| v in [grown] + rest[1..] && v.lo < r.lo <= v.hi + 1;
      assert (if v != grown then v else if last.hi >= rest[0].hi then last else rest[0]) in [last] + rest;
    }
  }

  /** Folding leaves a reversed range standing exactly when nothing comes up to it. */
  lemma {:induction false} FoldKeepsReversed(last: Interval, rest: seq<Interval>, r: Interval)
    requires FirstOf(last, rest) && Reversed(r)
    ensures r in Fold(last, rest) <==> r in [last] + rest && !Reached([last] + rest, r)
    decreases |rest|
  {
    if rest != [] {
      NextFirst(last, rest);
      assert [rest[0]] + rest[1..] == rest;
      if rest[0].lo <= last.hi + 1 {
        var grown := Interval(last.lo, Max(last.hi, rest[0].hi));
        FoldKeepsReversed(grown, rest[1..], r);
        GrownOwes(last, rest, grown);
        if r in rest[1..] { GrownReaches(last, rest, grown, r); }
      } else {
        FoldKeepsReversed(rest[0], rest[1..], r);
        StandsAlone(last, rest, r);
      }
    }
  }

  /** Merging leaves a reversed range standing exactly when nothing comes up to it. */
  lemma MergedKeepsReversed(all: seq<Interval>, r: Interval)
    requires Reversed(r)
    ensures r in Merged(all) <==> r in all && !Reached(all, r)
  {
    var sorted := Sort(all);
    SortKeeps(all);
    SortedIsEmpty(all);
    SameReached(sorted, all, r);
    if all != [] {
      SortedIsFirst(sorted);
      FoldKeepsReversed(sorted[0], sorted[1..], r);
    }
  }

  lemma {:induction false} InsertOwes(sorted: seq<Interval>, iv: Interval, all: seq<Interval>)
    ensures Owed(Insert(sorted, iv), all) == Owed([iv] + sorted, all)
  {
    OwedCons(iv, sorted, all);
    if sorted != [] && !Before(iv, sorted[0]) {
      InsertOwes(sorted[1..], iv, all);
      OwedCons(iv, sorted[1..], all);
      OwedCons(sorted[0], Insert(sorted[1..], iv), all);
    }
  }

  lemma {:induction false} SortOwes(ivs: seq<Interval>, all: seq<Interval>)
    ensures Owed(Sort(ivs), all) == Owed(ivs, all)
  {
    if ivs != [] {
      SortOwes(ivs[1..], all);
      InsertOwes(Sort(ivs[1..]), ivs[0], all);
      OwedCons(ivs[0], Sort(ivs[1..]), all);
    }
  }

  lemma SameReached(a: seq<Interval>, b: seq<Interval>, r: Interval)
    requires multiset(a) == multiset(b)
    ensures r in a <==> r in b
    ensures Reached(a, r) <==> Reached(b, r)
  {
    assert forall v :: v in a <==> v in multiset(a);
    assert forall v :: v in b <==> v in multiset(b);
  }

  /** Merging leaves as much debt as the reversed ranges owe that nothing comes up to. */
  lemma MergedOwes(all: seq<Interval>)
    ensures Debt(Merged(all)) == Owed(all, all)
  {
    var sorted := Sort(all);
    SortKeeps(all);
    if sorted != [] {
      SortedIsFirst(sorted);
      FoldOwes(sorted[0], sorted[1..]);
    }
    forall r
      ensures Reached(sorted, r) <==> Reached(all, r)
    {
      SameReached(sorted, all, r);
    }
    SameOwed(sorted, sorted, all);
    SortOwes(all, all);
  }

  lemma SortedIsFirst(sorted: seq<Interval>)
    requires sorted != [] && Sorted(sorted)
    ensures FirstOf(sorted[0], sorted[1..]) && [sorted[0]] + sorted[1..] == sorted
  {
    assert forall x | x in sorted[1..] :: Before(sorted[0], x);
  }

  lemma MergedIsApart(all: seq<Interval>)
    ensures Apart(Merged(all))
  {
    var sorted := Sort(all);
    SortKeeps(all);
    if sorted != [] {
      FoldIsApart(sorted[0], sorted[1..]);
    }
  }

  lemma SameLinesSet(a: seq<Interval>, b: seq<Interval>)
    requires forall n :: Covers(a, n) <==> Covers(b, n)
    ensures Lines(a) == Lines(b)
  {
  }

  lemma MergedLines(all: seq<Interval>)
    ensures Lines(Merged(all)) == Lines(all)
  {
    MergedCovers(all);
    SameLinesSet(Merged(all), all);
  }

  /** The lengths of the merged list fall short of the number of lines by what is owed: not at all if and only if every reversed range is swallowed by something earlier. */
  lemma CoveredIsExact(all: seq<Interval>)
    ensures Size(Merged(all)) == |Lines(all)| - Owed(all, all)
    ensures Size(Merged(all)) == |Lines(all)| <==> AllReached(all)
  {
    MergedIsApart(all);
    SizeAndDebt(Merged(all));
    MergedOwes(all);
    MergedLines(all);
    NothingOwed(all, all);
  }

  // ----- What the numbers mean

  /** Lines between the first and the last covered one that no read covers. */
  ghost function Skipped(ivs: seq<Interval>, lo: int, hi: int): set<int> {
    LinesIn(lo, hi) - Lines(ivs)
  }

  function LastOf(ivs: seq<Interval>): Interval
    requires ivs != []
  {
    ivs[|ivs| - 1]
  }

  /** Every line lies between the first start and the last end, or, when the last range is reversed, below its start. */
  lemma {:induction false} ApartBounds(ivs: seq<Interval>, n: int)
    requires Apart(ivs) && ivs != []
    ensures ivs[0].lo <= LastOf(ivs).lo
    ensures Covers(ivs, n) ==> ivs[0].lo <= n <= Max(LastOf(ivs).hi, LastOf(ivs).lo - 2)
    decreases |ivs|
  {
    var rest := ivs[1..];
    if rest != [] {
      ApartBounds(rest, n);
      assert rest[0] == ivs[1] && LastOf(rest) == LastOf(ivs);
    } else {
      assert !Covers(rest, n);
    }
  }

  lemma {:induction false} LastOwes(ivs: seq<Interval>)
    requires ivs != []
    ensures Debt(ivs) >= Owes(LastOf(ivs))
    ensures |ivs| > 1 ==> Debt(ivs) >= Owes(ivs[0]) + Owes(LastOf(ivs))
  {
    if |ivs| > 1 {
      LastOwes(ivs[1..]);
      assert LastOf(ivs[1..]) == LastOf(ivs);
    }
  }

  lemma SizeOfDifference(all: set<int>, part: set<int>)
    requires part <= all
    ensures |all - part| == |all| - |part|
  {
    assert all == part + (all - part) && part !! (all - part);
  }

  lemma SubsetIsSmaller(a: set<int>, b: set<int>)
    requires a <= b
    ensures |a| <= |b|
  {
    SizeOfDifference(b, a);
  }

  function GapNumber(merged: seq<Interval>): int
    requires merged != []
  {
    LastOf(merged).hi - merged[0].lo + 1 - Size(merged)
  }

  lemma TwoDifferences(a: set<int>, b: set<int>)
    ensures |b| - |b - a| == |a| - |a - b|
  {
    SizeOfDifference(a, a * b);
    SizeOfDifference(b, a * b);
    assert a - a * b == a - b && b - a * b == b - a;
  }

  /** Lines beyond the last end are there only if the last range is reversed, and then below its start. */
  lemma LinesBeyond(merged: seq<Interval>, lo: int, hi: int)
    requires Apart(merged) && merged != [] && lo == merged[0].lo && hi == LastOf(merged).hi
    ensures Lines(merged) - LinesIn(lo, hi) <= LinesIn(Max(lo, hi + 1), LastOf(merged).lo - 2)
  {
    forall n | n in Lines(merged) && n !in LinesIn(lo, hi)
      ensures n in LinesIn(Max(lo, hi + 1), LastOf(merged).lo - 2)
    {
      ApartBounds(merged, n);
    }
  }

  /** The gap number is the number of lines skipped if and only if nothing is owed or there is one region; else it is larger. */
  lemma GapsAreSkipped(merged: seq<Interval>)
    requires Apart(merged) && merged != []
    ensures
      var skipped := |Skipped(merged, merged[0].lo, LastOf(merged).hi)|;
      && GapNumber(merged) >= skipped
      && (GapNumber(merged) == skipped <==> Debt(merged) == 0 || |merged| == 1)
  {
    var lo, hi := merged[0].lo, LastOf(merged).hi;
    SizeAndDebt(merged);
    ApartBounds(merged, lo);
    LastOwes(merged);
    TwoDifferences(Lines(merged), LinesIn(lo, hi));
    LinesBeyond(merged, lo, hi);
    SubsetIsSmaller(Lines(merged) - LinesIn(lo, hi), LinesIn(Max(lo, hi + 1), LastOf(merged).lo - 2));
    if |merged| == 1 {
      assert merged[1..] == [];
      assert Lines(merged) == LinesIn(lo, hi);
    }
  }

  /** Extra lines are counted short by what is owed beyond what the first read owes itself; rightly if and only if the two are the same or nothing is extra. */
  lemma ExtraCounts(init: Interval, followups: seq<Interval>)
    ensures
      var all, counted := [init] + followups, AnalysisOf(init, followups).coverage.extraLines;
      var extra := |Lines(all) - LinesIn(init.lo, init.hi)|;
      && counted == Max(0, extra + Owes(init) - Owed(all, all))
      && (counted == extra <==> Owed(all, all) == Owes(init) || extra == 0)
  {
    var all := [init] + followups;
    MergedIsNotEmpty(all);
    CoveredIsExact(all);
    ExtraIsExact(init, all, Size(Merged(all)), |Lines(all) - LinesIn(init.lo, init.hi)|, Owed(all, all));
  }

  /** Covered lines are counted rightly if and only if every reversed range is swallowed by something earlier; gap lines if and only if that is so or one region is left. */
  lemma AnalysisCounts(init: Interval, followups: seq<Interval>)
    ensures
      var all, c := [init] + followups, AnalysisOf(init, followups).coverage;
      var merged := Merged(all);
      && merged != []
      && c.covered == |Lines(all)| - Owed(all, all)
      && (c.covered == |Lines(all)| <==> AllReached(all))
      && (c.gapLines == |Skipped(all, merged[0].lo, LastOf(merged).hi)| <==> AllReached(all) || c.regions == 1)
  {
    var all := [init] + followups;
    CoveredIsExact(all);
    GapsAreExact(all);
  }

  lemma GapsAreExact(all: seq<Interval>)
    requires all != []
    ensures Merged(all) != []
    ensures
      var merged := Merged(all);
      GapNumber(merged) == |Skipped(all, merged[0].lo, LastOf(merged).hi)| <==> AllReached(all) || |merged| == 1
  {
    MergedIsNotEmpty(all);
    MergedIsApart(all);
    MergedOwes(all);
    MergedLines(all);
    NothingOwed(all, all);
    GapsAreSkipped(Merged(all));
  }

  lemma ExtraIsExact(init: Interval, all: seq<Interval>, covered: int, extra: nat, owed: nat)
    requires all != [] && all[0] == init
    requires covered == |Lines(all)| - owed && extra == |Lines(all) - LinesIn(init.lo, init.hi)| && owed == Owed(all, all)
    ensures
      var counted := Max(0, covered - (init.hi - init.lo + 1));
      && counted == Max(0, extra + Owes(init) - owed)
      && (counted == extra <==> owed == Owes(init) || extra == 0)
  {
    ExtraIsOwed(init, all);
  }

  lemma ExtraIsOwed(init: Interval, all: seq<Interval>)
    requires all != [] && all[0] == init
    ensures |Lines(all) - LinesIn(init.lo, init.hi)| == |Lines(all)| - (init.hi - init.lo + 1) - Owes(init)
    ensures Lines(all) - LinesIn(init.lo, init.hi) == {} ==> Owed(all, all) >= Owes(init)
  {
    SizeOfDifference(Lines(all), LinesIn(init.lo, init.hi));
    NothingOwed(all, all);
    if Reached(all, init) {
      var v :| v in all && v.lo < init.lo <= v.hi + 1;
      var i :| 0 <= i < |all| && all[i] == v;
      CoversAt(all, i, v.lo);
      assert v.lo in Lines(all);
    }
  }

  /**
   * No extra lines are counted exactly when every later read that has lines lands inside the first, if
   * and only if they do or there are more lines outside than are owed beyond what the first read owes.
   */
  lemma NothingExtra(init: Interval, followups: seq<Interval>)
    ensures
      var all := [init] + followups;
      (AnalysisOf(init, followups).coverage.extraLines == 0 <==> AllInside(init, followups))
      <==> AllInside(init, followups) || |Lines(all) - LinesIn(init.lo, init.hi)| + Owes(init) > Owed(all, all)
  {
    var all := [init] + followups;
    var extra := Lines(all) - LinesIn(init.lo, init.hi);
    ExtraCounts(init, followups);
    ExtraIsOutside(init, followups, extra);
    ExtraIsOwed(init, all);
    NothingCounted(AnalysisOf(init, followups).coverage.extraLines, |extra|, Owes(init), Owed(all, all), AllInside(init, followups));
  }

  lemma NothingCounted(counted: int, extra: nat, owes: nat, owed: nat, inside: bool)
    requires counted == Max(0, extra + owes - owed) && (extra == 0 <==> inside) && (inside ==> owed >= owes)
    ensures (counted == 0 <==> inside) <==> inside || extra + owes > owed
  {
  }

  /** So they are whenever every reversed range is swallowed by something earlier. */
  lemma NothingExtraWhenReached(init: Interval, followups: seq<Interval>)
    requires AllReached([init] + followups)
    ensures AnalysisOf(init, followups).coverage.extraLines == 0 <==> AllInside(init, followups)
  {
    var all := [init] + followups;
    NothingOwed(all, all);
    ExtraIsOutside(init, followups, Lines(all) - LinesIn(init.lo, init.hi));
    NothingExtra(init, followups);
  }

  predicate AllInside(init: Interval, followups: seq<Interval>) {
    forall i | 0 <= i < |followups| && followups[i].lo <= followups[i].hi :: ClassifyFollowup(followups[i], init) == Inside
  }

  lemma ExtraIsOutside(init: Interval, followups: seq<Interval>, extra: set<int>)
    requires forall n :: n in extra <==> Covers([init] + followups, n) && !Has(init, n)
    ensures |extra| == 0 <==> AllInside(init, followups)
  {
    var all := [init] + followups;
    if AllInside(init, followups) {
      forall n
        ensures n !in extra
      {
        if Covers(all, n) {
          var i := CoveredBy(all, n);
          assert i == 0 || ClassifyFollowup(followups[i - 1], init) == Inside;
          assert Has(init, n);
        }
      }
      assert extra == {};
    } else {
      var i :| 0 <= i < |followups| && followups[i].lo <= followups[i].hi && ClassifyFollowup(followups[i], init) != Inside;
      var f := all[i + 1];
      CoversAt(all, i + 1, f.lo);
      CoversAt(all, i + 1, f.hi);
      assert f.lo in extra || f.hi in extra;
    }
  }

  lemma {:induction false} CoversAt(ivs: seq<Interval>, i: nat, n: int)
    requires i < |ivs| && Has(ivs[i], n)
    ensures Covers(ivs, n)
  {
    if i > 0 { CoversAt(ivs[1..], i - 1, n); }
  }

  lemma {:induction false} CoveredBy(ivs: seq<Interval>, n: int) returns (i: nat)
    requires Covers(ivs, n)
    ensures i < |ivs| && Has(ivs[i], n)
  {
    if Has(ivs[0], n) {
      i := 0;
    } else {
      i := CoveredBy(ivs[1..], n);
      i := i + 1;
    }
  }

  /** A range that ends before it starts can be counted as if it took lines away, and leave more lines in the gap than there are. */
  lemma BackwardRangeMiscounts()
    ensures
      var init, back := Interval(1, 2), Interval(50, 10);
      var c := AnalysisOf(init, [back]).coverage;
      && c.covered == -37 && |Lines([init] + [back])| == 2
      && c.gapLines == 47 && |Skipped([init] + [back], 1, 10)| == 8
  {
    var init, back := Interval(1, 2), Interval(50, 10);
    MergedPair(init, back);
    assert [init] + [back] == [init, back];
    PairCounts(init, back);
    SizeOfDifference(LinesIn(1, 10), LinesIn(1, 2));
  }

  /** A first read that ends before it starts adds to the extra lines. */
  lemma BackwardFirstReadMiscounts()
    ensures
      var init, later := Interval(50, 10), Interval(1, 100);
      && AnalysisOf(init, [later]).coverage.extraLines == 139
      && |Lines([init] + [later]) - LinesIn(50, 10)| == 100
  {
    SwallowedFirst(Interval(50, 10), Interval(1, 100));
  }

  lemma SwallowedFirst(init: Interval, later: Interval)
    requires Reversed(init) && later.lo < init.lo <= later.hi + 1
    ensures |Lines([init] + [later]) - LinesIn(init.lo, init.hi)| == later.hi - later.lo + 1
    ensures AnalysisOf(init, [later]).coverage.extraLines == later.hi - later.lo + 1 + Owes(init)
  {
    var all := [init] + [later];
    assert later in all && all[1..] == [later] && [later][1..] == [];
    assert Owed(all, all) == Owed([later], all) == 0;
    assert Lines([later]) == LinesIn(later.lo, later.hi) && LinesIn(init.lo, init.hi) == {};
    assert Lines(all) - LinesIn(init.lo, init.hi) == LinesIn(later.lo, later.hi);
    ExtraCounts(init, [later]);
  }

  lemma PairCounts(init: Interval, back: Interval)
    requires back.hi < back.lo
    ensures Size([init, back]) == init.hi - init.lo + back.hi - back.lo + 2
    ensures Lines([init, back]) == LinesIn(init.lo, init.hi)
  {
    assert [init, back][1..] == [back] && [back][1..] == [];
    assert Size([back]) == back.hi - back.lo + 1;
    assert Lines([back]) == {};
  }
}
