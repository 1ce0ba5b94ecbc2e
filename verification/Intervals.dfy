/** Lists of line intervals, inclusive at both ends, as sets of lines. */
module Intervals {

  datatype Interval = Interval(lo: int, hi: int)

  predicate Has(iv: Interval, n: int) {
    iv.lo <= n <= iv.hi
  }

  /** Some interval of the list has line n. */
  predicate Covers(ivs: seq<Interval>, n: int) {
    ivs != [] && (Has(ivs[0], n) || Covers(ivs[1..], n))
  }

  lemma {:induction false} CoversConcat(a: seq<Interval>, b: seq<Interval>, n: int)
    ensures Covers(a + b, n) <==> Covers(a, n) || Covers(b, n)
  {
    if a == [] {
      assert a + b == b;
    } else {
      assert (a + b)[1..] == a[1..] + b;
      CoversConcat(a[1..], b, n);
    }
  }

  // ----- Sorting and merging

  predicate Before(a: Interval, b: Interval) {
    a.lo < b.lo || (a.lo == b.lo && a.hi <= b.hi)
  }

  predicate Sorted(ivs: seq<Interval>) {
    forall i, j | 0 <= i < j < |ivs| :: Before(ivs[i], ivs[j])
  }

  function Insert(sorted: seq<Interval>, iv: Interval): seq<Interval> {
    if sorted == [] then [iv]
    else if Before(iv, sorted[0]) then [iv] + sorted
    else [sorted[0]] + Insert(sorted[1..], iv)
  }

  function Sort(ivs: seq<Interval>): seq<Interval> {
    if ivs == [] then [] else Insert(Sort(ivs[1..]), ivs[0])
  }

  lemma {:induction false} InsertKeeps(sorted: seq<Interval>, iv: Interval)
    ensures multiset(Insert(sorted, iv)) == multiset(sorted) + multiset{iv}
  {
    if sorted != [] && !Before(iv, sorted[0]) {
      InsertKeeps(sorted[1..], iv);
      assert sorted == [sorted[0]] + sorted[1..];
    }
  }

  lemma {:induction false} InsertSorts(sorted: seq<Interval>, iv: Interval)
    requires Sorted(sorted)
    ensures Sorted(Insert(sorted, iv))
  {
    if sorted != [] && !Before(iv, sorted[0]) {
      var rest := Insert(sorted[1..], iv);
      InsertSorts(sorted[1..], iv);
      InsertKeeps(sorted[1..], iv);
      forall j | 0 <= j < |rest|
        ensures Before(sorted[0], rest[j])
      {
        assert rest[j] in multiset(rest);
        assert rest[j] in sorted[1..] || rest[j] == iv;
      }
    }
  }

  lemma {:induction false} InsertCovers(sorted: seq<Interval>, iv: Interval, n: int)
    ensures Covers(Insert(sorted, iv), n) <==> Has(iv, n) || Covers(sorted, n)
  {
    if sorted == [] {
      assert [iv][1..] == [];
    } else if Before(iv, sorted[0]) {
      assert ([iv] + sorted)[1..] == sorted;
    } else {
      var rest := Insert(sorted[1..], iv);
      InsertCovers(sorted[1..], iv, n);
      assert ([sorted[0]] + rest)[1..] == rest;
    }
  }

  lemma {:induction false} SortKeeps(ivs: seq<Interval>)
    ensures Sorted(Sort(ivs)) && multiset(Sort(ivs)) == multiset(ivs)
  {
    if ivs != [] {
      SortKeeps(ivs[1..]);
      InsertKeeps(Sort(ivs[1..]), ivs[0]);
      InsertSorts(Sort(ivs[1..]), ivs[0]);
      assert ivs == [ivs[0]] + ivs[1..];
    }
  }

  lemma {:induction false} SortCovers(ivs: seq<Interval>, n: int)
    ensures Covers(Sort(ivs), n) <==> Covers(ivs, n)
  {
    if ivs != [] {
      SortCovers(ivs[1..], n);
      InsertCovers(Sort(ivs[1..]), ivs[0], n);
    }
  }

  function Max(a: int, b: int): int {
    if a < b then b else a
  }

  function Min(a: int, b: int): int {
    if a < b then a else b
  }

  /** Grows the last interval while the next one touches it. */
  function Fold(last: Interval, rest: seq<Interval>): seq<Interval>
    decreases |rest|
  {
    if rest == [] then [last]
    else if rest[0].lo <= last.hi + 1 then Fold(Interval(last.lo, Max(last.hi, rest[0].hi)), rest[1..])
    else [last] + Fold(rest[0], rest[1..])
  }

  function Merged(ivs: seq<Interval>): seq<Interval> {
    var sorted := Sort(ivs);
    if sorted == [] then [] else Fold(sorted[0], sorted[1..])
  }

  method Merge(ivs: seq<Interval>) returns (out: seq<Interval>)
    ensures out == Merged(ivs)
  {
    SortKeeps(ivs);
    if ivs == [] {
      return [];
    }
    var sorted := Sort(ivs);
    assert |sorted| == |multiset(sorted)| == |multiset(ivs)| == |ivs|;
    var last := sorted[0];
    var done: seq<Interval> := [];
    ghost var want := Fold(last, sorted[1..]);
    for i := 1 to |sorted|
      invariant done + Fold(last, sorted[i..]) == want
    {
      NextFolded(done, last, sorted, i);
      if sorted[i].lo <= last.hi + 1 {
        last := Interval(last.lo, Max(last.hi, sorted[i].hi));
      } else {
        done, last := done + [last], sorted[i];
      }
    }
    assert sorted[|sorted|..] == [];
    out := done + [last];
  }

  lemma NextFolded(done: seq<Interval>, last: Interval, sorted: seq<Interval>, i: nat)
    requires i < |sorted|
    ensures
      done + Fold(last, sorted[i..])
      == if sorted[i].lo <= last.hi + 1 then done + Fold(Interval(last.lo, Max(last.hi, sorted[i].hi)), sorted[i + 1..])
         else done + [last] + Fold(sorted[i], sorted[i + 1..])
  {
    assert sorted[i..][1..] == sorted[i + 1..];
    var rest := Fold(sorted[i], sorted[i + 1..]);
    assert done + ([last] + rest) == done + [last] + rest;
  }

  // ----- The normal form

  predicate Valid(ivs: seq<Interval>) {
    forall i | 0 <= i < |ivs| :: ivs[i].lo <= ivs[i].hi
  }

  /** Sorted and not touching; an interval may be empty, but no more than that. */
  predicate Spaced(ivs: seq<Interval>) {
    ivs != [] ==>
      && ivs[0].lo <= ivs[0].hi + 1
      && (|ivs| > 1 ==> ivs[0].hi + 1 < ivs[1].lo)
      && Spaced(ivs[1..])
  }

  /** Sorted, not empty, and not touching. */
  predicate Normal(ivs: seq<Interval>) {
    Spaced(ivs) && Valid(ivs)
  }

  predicate SortedAfter(last: Interval, rest: seq<Interval>) {
    Sorted(rest) && forall j | 0 <= j < |rest| :: last.lo <= rest[j].lo
  }

  lemma {:induction false} FoldCovers(last: Interval, rest: seq<Interval>, n: int)
    requires SortedAfter(last, rest)
    ensures Covers(Fold(last, rest), n) <==> Has(last, n) || Covers(rest, n)
    decreases |rest|
  {
    if rest != [] {
      if rest[0].lo <= last.hi + 1 {
        FoldCovers(Interval(last.lo, Max(last.hi, rest[0].hi)), rest[1..], n);
      } else {
        FoldCovers(rest[0], rest[1..], n);
        assert ([last] + Fold(rest[0], rest[1..]))[1..] == Fold(rest[0], rest[1..]);
      }
    }
  }

  lemma {:induction false} FoldIsNormal(last: Interval, rest: seq<Interval>)
    requires SortedAfter(last, rest) && last.lo <= last.hi && Valid(rest)
    ensures Normal(Fold(last, rest)) && Fold(last, rest) != [] && Fold(last, rest)[0].lo == last.lo
    decreases |rest|
  {
    if rest != [] {
      if rest[0].lo <= last.hi + 1 {
        FoldIsNormal(Interval(last.lo, Max(last.hi, rest[0].hi)), rest[1..]);
      } else {
        FoldIsNormal(rest[0], rest[1..]);
        assert ([last] + Fold(rest[0], rest[1..]))[1..] == Fold(rest[0], rest[1..]);
      }
    }
  }

  lemma SortedIsEmpty(ivs: seq<Interval>)
    ensures Sort(ivs) == [] <==> ivs == []
  {
    SortKeeps(ivs);
    assert |Sort(ivs)| == |multiset(Sort(ivs))| == |multiset(ivs)| == |ivs|;
  }

  lemma MergedIsNormal(ivs: seq<Interval>)
    requires Valid(ivs)
    ensures Normal(Merged(ivs))
  {
    var sorted := Sort(ivs);
    SortKeeps(ivs);
    if sorted != [] {
      forall j | 0 <= j < |sorted|
        ensures sorted[j].lo <= sorted[j].hi
      {
        assert sorted[j] in multiset(ivs);
      }
      FoldIsNormal(sorted[0], sorted[1..]);
    }
  }

  /** Merging changes no line, whatever the intervals; and it makes valid ones normal. */
  lemma MergedCovers(ivs: seq<Interval>)
    ensures forall n :: Covers(Merged(ivs), n) <==> Covers(ivs, n)
    ensures Valid(ivs) ==> Normal(Merged(ivs))
  {
    var sorted := Sort(ivs);
    SortKeeps(ivs);
    SortedIsEmpty(ivs);
    forall n
      ensures Covers(Merged(ivs), n) <==> Covers(ivs, n)
    {
      SortCovers(ivs, n);
      if sorted != [] {
        FoldCovers(sorted[0], sorted[1..], n);
      }
    }
    if Valid(ivs) {
      MergedIsNormal(ivs);
    }
  }

  lemma {:induction false} SpacedStarts(ivs: seq<Interval>, n: int)
    requires Spaced(ivs) && Covers(ivs, n)
    ensures ivs[0].lo <= n
    decreases |ivs|
  {
    if !Has(ivs[0], n) {
      SpacedStarts(ivs[1..], n);
    }
  }

  lemma SpacedGap(ivs: seq<Interval>)
    requires Spaced(ivs) && ivs != []
    ensures !Covers(ivs, ivs[0].hi + 1)
    ensures forall n | Covers(ivs[1..], n) :: n > ivs[0].hi + 1
  {
    forall n | Covers(ivs[1..], n)
      ensures n > ivs[0].hi + 1
    {
      SpacedStarts(ivs[1..], n);
    }
  }

  ghost predicate SameLines(a: seq<Interval>, b: seq<Interval>) {
    forall n :: Covers(a, n) <==> Covers(b, n)
  }

  /** A set of lines has one normal form. */
  lemma {:induction false} NormalIsUnique(a: seq<Interval>, b: seq<Interval>)
    requires Normal(a) && Normal(b) && SameLines(a, b)
    ensures a == b
    decreases |a|
  {
    if a == [] {
      assert b != [] ==> Covers(b, b[0].lo) && !Covers(a, b[0].lo);
    } else {
      assert Covers(a, a[0].lo) && Covers(b, a[0].lo);
      SpacedStarts(b, a[0].lo);
      assert Covers(b, b[0].lo) && Covers(a, b[0].lo);
      SpacedStarts(a, b[0].lo);
      SpacedGap(a);
      SpacedGap(b);
      SameEnd(a, b);
      TailsAgree(a, b);
      NormalIsUnique(a[1..], b[1..]);
      assert a == [a[0]] + a[1..] && b == [b[0]] + b[1..];
    }
  }

  lemma SameEnd(a: seq<Interval>, b: seq<Interval>)
    requires Normal(a) && Normal(b) && a != [] && b != [] && SameLines(a, b) && a[0].lo == b[0].lo
    ensures a[0].hi == b[0].hi
  {
    SpacedGap(a);
    SpacedGap(b);
    var n := Min(a[0].hi, b[0].hi) + 1;
    assert Covers(a, n) <==> Covers(b, n);
    assert Covers(a, n) <== Has(a[0], n);
    assert Covers(b, n) <== Has(b[0], n);
  }

  lemma TailsAgree(a: seq<Interval>, b: seq<Interval>)
    requires Normal(a) && Normal(b) && a != [] && b != [] && SameLines(a, b) && a[0] == b[0]
    ensures SameLines(a[1..], b[1..])
  {
    SpacedGap(a);
    SpacedGap(b);
    forall n
      ensures Covers(a[1..], n) <==> Covers(b[1..], n)
    {
      assert Covers(a, n) <==> Has(a[0], n) || Covers(a[1..], n);
      assert Covers(b, n) <==> Has(b[0], n) || Covers(b[1..], n);
    }
  }

  // ----- Adding one interval

  function Add(ivs: seq<Interval>, item: Interval, placed: bool): seq<Interval> {
    if ivs == [] then if placed then [] else [item]
    else if ivs[0].hi + 1 < item.lo then [ivs[0]] + Add(ivs[1..], item, placed)
    else if item.hi + 1 < ivs[0].lo then (if placed then [ivs[0]] else [item, ivs[0]]) + Add(ivs[1..], item, true)
    else Add(ivs[1..], Interval(Min(item.lo, ivs[0].lo), Max(item.hi, ivs[0].hi)), placed)
  }

  method AddInterval(intervals: seq<Interval>, item: Interval) returns (out: seq<Interval>)
    ensures out == Add(intervals, item, false)
  {
    var current, placed := item, false;
    out := [];
    ghost var want := Add(intervals, item, false);
    assert intervals[0..] == intervals;
    for i := 0 to |intervals|
      invariant out + Add(intervals[i..], current, placed) == want
    {
      var iv := intervals[i];
      NextAdded(out, intervals, i, current, placed);
      if iv.hi + 1 < current.lo {
        out := out + [iv];
      } else if current.hi + 1 < iv.lo {
        if !placed {
          out, placed := out + [current], true;
        }
        out := out + [iv];
      } else {
        current := Interval(Min(current.lo, iv.lo), Max(current.hi, iv.hi));
      }
    }
    assert intervals[|intervals|..] == [];
    if !placed {
      out := out + [current];
    }
  }

  lemma NextAdded(out: seq<Interval>, ivs: seq<Interval>, i: nat, item: Interval, placed: bool)
    requires i < |ivs|
    ensures
      out + Add(ivs[i..], item, placed)
      == if ivs[i].hi + 1 < item.lo then out + [ivs[i]] + Add(ivs[i + 1..], item, placed)
         else if item.hi + 1 < ivs[i].lo then
           (if placed then out + [ivs[i]] else out + [item] + [ivs[i]]) + Add(ivs[i + 1..], item, true)
         else out + Add(ivs[i + 1..], Interval(Min(item.lo, ivs[i].lo), Max(item.hi, ivs[i].hi)), placed)
  {
    assert ivs[i..][1..] == ivs[i + 1..];
  }

  /** After the item is placed, only later intervals come. */
  lemma {:induction false} AddPlaced(ivs: seq<Interval>, item: Interval)
    requires Spaced(ivs) && item.lo <= item.hi + 1 && (ivs != [] ==> item.hi + 1 < ivs[0].lo)
    ensures Add(ivs, item, true) == ivs
    decreases |ivs|
  {
    if ivs != [] {
      AddPlaced(ivs[1..], item);
    }
  }

  lemma {:induction false} AddCovers(ivs: seq<Interval>, item: Interval, n: int)
    requires Spaced(ivs) && item.lo <= item.hi + 1
    ensures Covers(Add(ivs, item, false), n) <==> Has(item, n) || Covers(ivs, n)
    decreases |ivs|
  {
    if ivs == [] {
      assert [item][1..] == [];
    } else if ivs[0].hi + 1 < item.lo {
      AddCovers(ivs[1..], item, n);
      assert ([ivs[0]] + Add(ivs[1..], item, false))[1..] == Add(ivs[1..], item, false);
    } else if item.hi + 1 < ivs[0].lo {
      AddPlaced(ivs[1..], item);
      assert ([item, ivs[0]] + ivs[1..])[1..] == ivs;
    } else {
      AddCovers(ivs[1..], Interval(Min(item.lo, ivs[0].lo), Max(item.hi, ivs[0].hi)), n);
    }
  }

  lemma {:induction false} AddIsSpaced(ivs: seq<Interval>, item: Interval)
    requires Spaced(ivs) && item.lo <= item.hi + 1
    ensures
      var r := Add(ivs, item, false);
      Spaced(r) && r != [] && r[0].lo == if ivs == [] then item.lo else Min(item.lo, ivs[0].lo)
    decreases |ivs|
  {
    if ivs == [] {
      assert [item][1..] == [];
    } else if ivs[0].hi + 1 < item.lo {
      AddIsSpaced(ivs[1..], item);
      assert ([ivs[0]] + Add(ivs[1..], item, false))[1..] == Add(ivs[1..], item, false);
    } else if item.hi + 1 < ivs[0].lo {
      AddPlaced(ivs[1..], item);
      assert ([item, ivs[0]] + ivs[1..])[1..] == ivs;
    } else {
      AddIsSpaced(ivs[1..], Interval(Min(item.lo, ivs[0].lo), Max(item.hi, ivs[0].hi)));
    }
  }

  lemma {:induction false} AddIsValid(ivs: seq<Interval>, item: Interval, placed: bool)
    requires Valid(ivs) && item.lo <= item.hi
    ensures Valid(Add(ivs, item, placed))
    decreases |ivs|
  {
    if ivs != [] {
      AddIsValid(ivs[1..], item, placed);
      AddIsValid(ivs[1..], item, true);
      AddIsValid(ivs[1..], Interval(Min(item.lo, ivs[0].lo), Max(item.hi, ivs[0].hi)), placed);
    }
  }

  /** Adding in place is merging from scratch. */
  lemma AddIsMerge(ivs: seq<Interval>, item: Interval)
    requires Normal(ivs) && item.lo <= item.hi
    ensures Add(ivs, item, false) == Merged(ivs + [item])
  {
    MergedCovers(ivs + [item]);
    AddIsSpaced(ivs, item);
    AddIsValid(ivs, item, false);
    forall n
      ensures Covers(Add(ivs, item, false), n) <==> Covers(Merged(ivs + [item]), n)
    {
      AddCovers(ivs, item, n);
      CoversConcat(ivs, [item], n);
      assert [item][1..] == [];
      assert Covers([item], n) <==> Has(item, n);
    }
    NormalIsUnique(Add(ivs, item, false), Merged(ivs + [item]));
  }

  // ----- Asking whether an interval is covered

  ghost predicate AllCovered(ivs: seq<Interval>, target: Interval) {
    forall n | Has(target, n) :: Covers(ivs, n)
  }

  method IsCovered(intervals: seq<Interval>, target: Interval) returns (covered: bool)
    requires Spaced(intervals) && target.lo <= target.hi
    ensures covered <==> AllCovered(intervals, target)
  {
    assert intervals[0..] == intervals;
    for i := 0 to |intervals|
      invariant Spaced(intervals[i..])
      invariant AllCovered(intervals[i..], target) <==> AllCovered(intervals, target)
    {
      var iv := intervals[i];
      assert intervals[i..][1..] == intervals[i + 1..];
      OneInterval(intervals[i..], target);
      if iv.lo <= target.lo && target.hi <= iv.hi {
        return true;
      }
      if iv.lo > target.lo {
        return false;
      }
    }
    assert intervals[|intervals|..] == [];
    assert Has(target, target.lo);
    return false;
  }

  /** A covered interval lies inside one interval of such a list. */
  lemma OneInterval(ivs: seq<Interval>, target: Interval)
    requires Spaced(ivs) && ivs != [] && target.lo <= target.hi
    ensures ivs[0].lo <= target.lo && target.hi <= ivs[0].hi ==> AllCovered(ivs, target)
    ensures ivs[0].lo > target.lo ==> !AllCovered(ivs, target)
    ensures
      ivs[0].lo <= target.lo && target.hi > ivs[0].hi
      ==> (AllCovered(ivs, target) <==> AllCovered(ivs[1..], target))
  {
    SpacedGap(ivs);
    if ivs[0].lo > target.lo {
      assert Has(target, target.lo);
      if Covers(ivs, target.lo) {
        SpacedStarts(ivs, target.lo);
      }
    } else if target.hi > ivs[0].hi {
      if target.lo <= ivs[0].hi {
        assert Has(target, ivs[0].hi + 1) && Has(target, target.lo);
      } else {
        assert forall n | Has(target, n) :: Covers(ivs, n) <==> Covers(ivs[1..], n);
      }
    }
  }

  method Contained(s: int, e: int, ivs: seq<Interval>) returns (inside: bool)
    ensures inside <==> exists i :: 0 <= i < |ivs| && ivs[i].lo <= s && ivs[i].hi >= e
  {
    for i := 0 to |ivs|
      invariant forall j | 0 <= j < i :: !(ivs[j].lo <= s && ivs[j].hi >= e)
    {
      if ivs[i].lo <= s && ivs[i].hi >= e {
        return true;
      }
    }
    return false;
  }

  /** On such a list, lying inside one interval and being covered are the same. */
  lemma {:induction false} ContainedIsCovered(ivs: seq<Interval>, target: Interval)
    requires Spaced(ivs) && target.lo <= target.hi
    ensures (exists i :: 0 <= i < |ivs| && ivs[i].lo <= target.lo && ivs[i].hi >= target.hi) <==> AllCovered(ivs, target)
    decreases |ivs|
  {
    if ivs == [] {
      assert Has(target, target.lo) && !Covers(ivs, target.lo);
    } else {
      OneInterval(ivs, target);
      ContainedIsCovered(ivs[1..], target);
      SpacedGap(ivs);
      assert forall i | 1 <= i < |ivs| :: ivs[i] == ivs[1..][i - 1];
      assert forall i | 0 <= i < |ivs| - 1 :: ivs[1..][i] == ivs[i + 1];
      if ivs[0].lo > target.lo && exists i :: 0 <= i < |ivs| && ivs[i].lo <= target.lo && ivs[i].hi >= target.hi {
        var i :| 0 <= i < |ivs| && ivs[i].lo <= target.lo && ivs[i].hi >= target.hi;
        SpacedOrder(ivs, i);
      }
    }
  }

  lemma {:induction false} SpacedOrder(ivs: seq<Interval>, i: nat)
    requires Spaced(ivs) && i < |ivs|
    ensures ivs[0].lo <= ivs[i].lo <= ivs[i].hi + 1
  {
    if i > 0 {
      SpacedOrder(ivs[1..], i - 1);
    }
  }

  // ----- Taking intervals away

  /** What one interval leaves of another. */
  function Cut(piece: Interval, iv: Interval): seq<Interval> {
    if iv.hi < piece.lo || iv.lo > piece.hi then [piece]
    else
      (if iv.lo > piece.lo then [Interval(piece.lo, iv.lo - 1)] else [])
      + if iv.hi < piece.hi then [Interval(iv.hi + 1, piece.hi)] else []
  }

  function CutAll(pieces: seq<Interval>, iv: Interval): seq<Interval> {
    if pieces == [] then [] else Cut(pieces[0], iv) + CutAll(pieces[1..], iv)
  }

  function SubtractAll(pieces: seq<Interval>, ivs: seq<Interval>): seq<Interval>
    decreases |ivs|
  {
    if ivs == [] then pieces else SubtractAll(CutAll(pieces, ivs[0]), ivs[1..])
  }

  method CutPieces(pieces: seq<Interval>, iv: Interval) returns (new_: seq<Interval>)
    ensures new_ == CutAll(pieces, iv)
  {
    new_ := [];
    assert pieces[0..] == pieces;
    ghost var want := CutAll(pieces, iv);
    for i := 0 to |pieces|
      invariant new_ + CutAll(pieces[i..], iv) == want
    {
      assert pieces[i..][1..] == pieces[i + 1..];
      ghost var rest := CutAll(pieces[i + 1..], iv);
      assert new_ + (Cut(pieces[i], iv) + rest) == new_ + Cut(pieces[i], iv) + rest;
      var piece := pieces[i];
      if iv.hi < piece.lo || iv.lo > piece.hi {
        new_ := new_ + [piece];
        continue;
      }
      var left := if iv.lo > piece.lo then [Interval(piece.lo, iv.lo - 1)] else [];
      var right := if iv.hi < piece.hi then [Interval(iv.hi + 1, piece.hi)] else [];
      new_ := new_ + (left + right);
    }
    assert pieces[|pieces|..] == [];
  }

  method Subtract(s: int, e: int, ivs: seq<Interval>) returns (out: seq<Interval>)
    ensures out == SubtractAll([Interval(s, e)], ivs)
  {
    out := [Interval(s, e)];
    assert ivs[0..] == ivs;
    ghost var want := SubtractAll(out, ivs);
    for i := 0 to |ivs|
      invariant SubtractAll(out, ivs[i..]) == want
    {
      assert ivs[i..][1..] == ivs[i + 1..];
      out := CutPieces(out, ivs[i]);
      if out == [] {
        NothingLeft(ivs[i + 1..]);
        return;
      }
    }
    assert ivs[|ivs|..] == [];
  }

  lemma {:induction false} NothingLeft(ivs: seq<Interval>)
    ensures SubtractAll([], ivs) == []
  {
    if ivs != [] {
      NothingLeft(ivs[1..]);
    }
  }

  lemma CutCovers(piece: Interval, iv: Interval, n: int)
    ensures Covers(Cut(piece, iv), n) <==> Has(piece, n) && !Has(iv, n)
  {
    var left := if iv.lo > piece.lo then [Interval(piece.lo, iv.lo - 1)] else [];
    var right := if iv.hi < piece.hi then [Interval(iv.hi + 1, piece.hi)] else [];
    CoversConcat(left, right, n);
    assert [piece][1..] == [];
    assert left != [] ==> left[1..] == [];
    assert right != [] ==> right[1..] == [];
  }

  lemma {:induction false} CutAllCovers(pieces: seq<Interval>, iv: Interval, n: int)
    ensures Covers(CutAll(pieces, iv), n) <==> Covers(pieces, n) && !Has(iv, n)
  {
    if pieces != [] {
      CutCovers(pieces[0], iv, n);
      CutAllCovers(pieces[1..], iv, n);
      CoversConcat(Cut(pieces[0], iv), CutAll(pieces[1..], iv), n);
    }
  }

  /** Subtraction is exact, whatever the intervals. */
  lemma {:induction false} SubtractCovers(pieces: seq<Interval>, ivs: seq<Interval>, n: int)
    ensures Covers(SubtractAll(pieces, ivs), n) <==> Covers(pieces, n) && !Covers(ivs, n)
    decreases |ivs|
  {
    if ivs != [] {
      CutAllCovers(pieces, ivs[0], n);
      SubtractCovers(CutAll(pieces, ivs[0]), ivs[1..], n);
    }
  }

  // ----- Counting lines

  /** In order and disjoint. */
  predicate Disjoint(ivs: seq<Interval>) {
    ivs != [] ==>
      && ivs[0].lo <= ivs[0].hi
      && (|ivs| > 1 ==> ivs[0].hi < ivs[1].lo)
      && Disjoint(ivs[1..])
  }

  function LinesIn(lo: int, hi: int): (s: set<int>)
    ensures forall n :: n in s <==> lo <= n <= hi
    ensures |s| == if lo <= hi then hi - lo + 1 else 0
    decreases hi - lo
  {
    if hi < lo then {} else LinesIn(lo, hi - 1) + {hi}
  }

  /** The lines of a list, each once. */
  function Lines(ivs: seq<Interval>): (s: set<int>)
    ensures forall n :: n in s <==> Covers(ivs, n)
  {
    if ivs == [] then {} else LinesIn(ivs[0].lo, ivs[0].hi) + Lines(ivs[1..])
  }

  function Size(ivs: seq<Interval>): int {
    if ivs == [] then 0 else ivs[0].hi - ivs[0].lo + 1 + Size(ivs[1..])
  }

  lemma {:induction false} DisjointStarts(ivs: seq<Interval>, n: int)
    requires Disjoint(ivs) && Covers(ivs, n)
    ensures ivs[0].lo <= n
    decreases |ivs|
  {
    if !Has(ivs[0], n) {
      DisjointStarts(ivs[1..], n);
    }
  }

  lemma {:induction false} NormalIsDisjoint(ivs: seq<Interval>)
    requires Normal(ivs)
    ensures Disjoint(ivs)
  {
    if ivs != [] {
      NormalIsDisjoint(ivs[1..]);
    }
  }

  /** The summed lengths are the number of distinct lines. */
  lemma {:induction false} SizeCountsLines(ivs: seq<Interval>)
    requires Disjoint(ivs)
    ensures Size(ivs) == |Lines(ivs)|
  {
    if ivs != [] {
      SizeCountsLines(ivs[1..]);
      var first, rest := LinesIn(ivs[0].lo, ivs[0].hi), Lines(ivs[1..]);
      forall n | n in rest
        ensures n !in first
      {
        DisjointStarts(ivs[1..], n);
      }
      assert first !! rest;
    }
  }

  lemma {:induction false} DisjointConcat(a: seq<Interval>, b: seq<Interval>)
    requires Disjoint(a) && Disjoint(b)
    requires a != [] && b != [] ==> a[|a| - 1].hi < b[0].lo
    ensures Disjoint(a + b)
    decreases |a|
  {
    if a == [] {
      assert a + b == b;
    } else {
      assert (a + b)[1..] == a[1..] + b;
      DisjointConcat(a[1..], b);
    }
  }

  /** Inside these bounds. */
  predicate Within(ivs: seq<Interval>, lo: int, hi: int) {
    forall i | 0 <= i < |ivs| :: lo <= ivs[i].lo && ivs[i].hi <= hi
  }

  lemma {:induction false} CutAllIsDisjoint(pieces: seq<Interval>, iv: Interval, lo: int, hi: int)
    requires Disjoint(pieces) && Within(pieces, lo, hi) && iv.lo <= iv.hi
    ensures Disjoint(CutAll(pieces, iv)) && Within(CutAll(pieces, iv), lo, hi)
    ensures forall i | 0 <= i < |CutAll(pieces, iv)| && pieces != [] :: pieces[0].lo <= CutAll(pieces, iv)[i].lo
    decreases |pieces|
  {
    if pieces != [] {
      var first, rest := Cut(pieces[0], iv), CutAll(pieces[1..], iv);
      CutAllIsDisjoint(pieces[1..], iv, lo, hi);
      CutIsDisjoint(pieces[0], iv);
      DisjointConcat(first, rest);
    }
  }

  lemma CutIsDisjoint(piece: Interval, iv: Interval)
    requires piece.lo <= piece.hi && iv.lo <= iv.hi
    ensures Disjoint(Cut(piece, iv)) && Within(Cut(piece, iv), piece.lo, piece.hi)
  {
    var c := Cut(piece, iv);
    if |c| == 1 {
      assert c[1..] == [];
    } else if |c| == 2 {
      assert c[1..] == [c[1]] && c[1..][1..] == [];
    }
  }

  lemma {:induction false} SubtractIsDisjoint(pieces: seq<Interval>, ivs: seq<Interval>, lo: int, hi: int)
    requires Disjoint(pieces) && Within(pieces, lo, hi) && Valid(ivs)
    ensures Disjoint(SubtractAll(pieces, ivs)) && Within(SubtractAll(pieces, ivs), lo, hi)
    decreases |ivs|
  {
    if ivs != [] {
      CutAllIsDisjoint(pieces, ivs[0], lo, hi);
      SubtractIsDisjoint(CutAll(pieces, ivs[0]), ivs[1..], lo, hi);
    }
  }
}
