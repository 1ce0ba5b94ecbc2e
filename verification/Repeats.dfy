/** Finding the longest run of lines that a payload block says twice. */
module Repeats {
  import opened Wrappers

  /** The k lines from i on come again from j on, and the two runs do not overlap. */
  predicate IsRepeat<T(==)>(block: seq<T>, i: nat, j: nat, k: nat) {
    i + k <= j && j + k <= |block| && block[i..i + k] == block[j..j + k]
  }

  /** How far the runs from i and j agree, when k lines do. */
  function Run<T(==)>(block: seq<T>, i: nat, j: nat, k: nat): (r: nat)
    requires i + k <= j && j + k <= |block|
    ensures k <= r && i + r <= j && j + r <= |block|
    decreases |block| - k
  {
    if i + k < j && j + k < |block| && block[i + k] == block[j + k] then Run(block, i, j, k + 1) else k
  }

  /** The runs that repeat are the ones no longer than that. */
  lemma {:induction false} RunIsLongest<T>(block: seq<T>, i: nat, j: nat, k: nat, n: nat)
    requires IsRepeat(block, i, j, k) && n >= k
    ensures IsRepeat(block, i, j, n) <==> n <= Run(block, i, j, k)
    decreases |block| - k
  {
    if i + k < j && j + k < |block| {
      if block[i + k] == block[j + k] {
        assert block[i..i + (k + 1)] == block[i..i + k] + [block[i + k]];
        assert block[j..j + (k + 1)] == block[j..j + k] + [block[j + k]];
        if n > k { RunIsLongest(block, i, j, k + 1, n); }
      } else if n > k && i + n <= j && j + n <= |block| {
        assert block[i..i + n][k] == block[i + k] && block[j..j + n][k] == block[j + k];
      }
    }
  }

  /** How many of the k lines from i on mean something. */
  function CountMeaningful<T>(block: seq<T>, meaningful: T -> bool, i: nat, k: nat): (c: nat)
    requires i + k <= |block|
    ensures c <= k
  {
    if k == 0 then 0 else CountMeaningful(block, meaningful, i, k - 1) + if meaningful(block[i + k - 1]) then 1 else 0
  }

  /** At least half of them do, and at least two. */
  predicate Enough<T>(block: seq<T>, meaningful: T -> bool, i: nat, k: nat)
    requires i + k <= |block|
  {
    CountMeaningful(block, meaningful, i, k) >= if k > 3 then (k + 1) / 2 else 2
  }

  /** The longest run from i and j is long enough and means enough. */
  predicate Accepted<T(==)>(block: seq<T>, meaningful: T -> bool, minLen: nat, i: nat, j: nat) {
    i < j < |block| && Run(block, i, j, 0) >= minLen && Enough(block, meaningful, i, Run(block, i, j, 0))
  }

  /** Comes before (i, j) in the order of the search. */
  predicate Earlier(p: nat, q: nat, i: nat, j: nat) {
    p < i || (p == i && q < j)
  }

  /** The longest accepted run of those searched, and the first of them. */
  ghost predicate IsBest<T>(block: seq<T>, meaningful: T -> bool, minLen: nat, i: nat, j: nat, best: Option<(nat, nat)>) {
    match best
    case None => forall p: nat, q: nat | Earlier(p, q, i, j) :: !Accepted(block, meaningful, minLen, p, q)
    case Some(b) =>
      && (exists q: nat :: Earlier(b.0, q, i, j) && Accepted(block, meaningful, minLen, b.0, q) && Run(block, b.0, q, 0) == b.1)
      && forall p: nat, q: nat | Earlier(p, q, i, j) && Accepted(block, meaningful, minLen, p, q) ::
           Run(block, p, q, 0) < b.1 || (Run(block, p, q, 0) == b.1 && b.0 <= p)
  }

  /** The lines from i and j on, compared one by one. */
  method Extend<T(==)>(block: seq<T>, i: nat, j: nat) returns (k: nat)
    requires i <= j <= |block|
    ensures k == Run(block, i, j, 0)
  {
    k := 0;
    while i + k < j && j + k < |block| && block[i + k] == block[j + k]
      invariant i + k <= j && j + k <= |block|
      invariant Run(block, i, j, k) == Run(block, i, j, 0)
    {
      k := k + 1;
    }
  }

  method CountLines<T>(block: seq<T>, meaningful: T -> bool, i: nat, k: nat) returns (c: nat)
    requires i + k <= |block|
    ensures c == CountMeaningful(block, meaningful, i, k)
  {
    c := 0;
    for n := 0 to k
      invariant c == CountMeaningful(block, meaningful, i, n)
    {
      if meaningful(block[i + n]) {
        c := c + 1;
      }
    }
  }

  /** One pair more. */
  function Better<T(==)>(block: seq<T>, meaningful: T -> bool, minLen: nat, i: nat, j: nat, best: Option<(nat, nat)>): Option<(nat, nat)> {
    if Accepted(block, meaningful, minLen, i, j) && (best.None? || Run(block, i, j, 0) > best.value.1) then
      Some((i, Run(block, i, j, 0)))
    else best
  }

  lemma BetterIsBest<T>(block: seq<T>, meaningful: T -> bool, minLen: nat, i: nat, j: nat, best: Option<(nat, nat)>)
    requires IsBest(block, meaningful, minLen, i, j, best)
    ensures IsBest(block, meaningful, minLen, i, j + 1, Better(block, meaningful, minLen, i, j, best))
  {
    forall p: nat, q: nat
      ensures Earlier(p, q, i, j + 1) <==> Earlier(p, q, i, j) || (p == i && q == j)
    {
    }
    if Accepted(block, meaningful, minLen, i, j) {
      assert Earlier(i, j, i, j + 1);
    }
    if best.Some? {
      var q: nat :| Earlier(best.value.0, q, i, j) && Accepted(block, meaningful, minLen, best.value.0, q) && Run(block, best.value.0, q, 0) == best.value.1;
      assert Earlier(best.value.0, q, i, j + 1);
    }
  }

  /** The search does not miss a pair by starting or stopping early. */
  lemma NoneBetween<T>(block: seq<T>, meaningful: T -> bool, minLen: nat, i: nat, j: nat, i': nat, j': nat, best: Option<(nat, nat)>)
    requires IsBest(block, meaningful, minLen, i, j, best) && (i < i' || (i == i' && j <= j') || i' >= |block|)
    requires forall p: nat, q: nat | Earlier(p, q, i', j') && !Earlier(p, q, i, j) :: !Accepted(block, meaningful, minLen, p, q)
    ensures IsBest(block, meaningful, minLen, i', j', best)
  {
  }

  method Consider<T(==)>(block: seq<T>, meaningful: T -> bool, minLen: nat, i: nat, j: nat, best: Option<(nat, nat)>) returns (next: Option<(nat, nat)>)
    requires i <= j <= |block|
    ensures next == Better(block, meaningful, minLen, i, j, best)
  {
    next := best;
    var k := Extend(block, i, j);
    if k >= minLen {
      var c := CountLines(block, meaningful, i, k);
      if c >= (if k > 3 then (k + 1) / 2 else 2) && (best.None? || k > best.value.1) {
        next := Some((i, k));
      }
    }
  }

  method SearchFrom<T(==,!new)>(block: seq<T>, meaningful: T -> bool, minLen: nat, i: nat, before: Option<(nat, nat)>) returns (best: Option<(nat, nat)>)
    requires i + minLen <= |block| && IsBest(block, meaningful, minLen, i, 0, before)
    ensures IsBest(block, meaningful, minLen, i + 1, 0, best)
  {
    best := before;
    var j := i + minLen;
    NoneBetween(block, meaningful, minLen, i, 0, i, j, best);
    while j < |block| - minLen + 1
      invariant i + minLen <= j && IsBest(block, meaningful, minLen, i, j, best)
    {
      BetterIsBest(block, meaningful, minLen, i, j, best);
      best := Consider(block, meaningful, minLen, i, j, best);
      j := j + 1;
    }
    NoneBetween(block, meaningful, minLen, i, j, i + 1, 0, best);
  }

  method FindLongestRepeat<T(==,!new)>(block: seq<T>, meaningful: T -> bool, minLen: nat) returns (best: Option<(nat, nat)>)
    ensures IsBest(block, meaningful, minLen, |block|, 0, best)
  {
    best := None;
    if |block| >= 2 * minLen {
      for i := 0 to |block| - minLen + 1
        invariant IsBest(block, meaningful, minLen, i, 0, best)
      {
        best := SearchFrom(block, meaningful, minLen, i, best);
      }
      NoneBetween(block, meaningful, minLen, |block| - minLen + 1, 0, |block|, 0, best);
    }
  }

  // ----- What it finds

  /** A repeat as the search promises to find: long enough, and half of it means something. */
  predicate IsWorthy<T(==)>(block: seq<T>, meaningful: T -> bool, minLen: nat, i: nat, j: nat, k: nat) {
    IsRepeat(block, i, j, k) && k >= minLen && Enough(block, meaningful, i, k)
  }

  /** No line more. */
  predicate IsWhole<T(==)>(block: seq<T>, i: nat, j: nat, k: nat) {
    !IsRepeat(block, i, j, k + 1)
  }

  /** The accepted runs are the worthy repeats that nothing follows. */
  lemma AcceptedIsWhole<T>(block: seq<T>, meaningful: T -> bool, minLen: nat, i: nat, j: nat, k: nat)
    ensures
      IsWorthy(block, meaningful, minLen, i, j, k) && IsWhole(block, i, j, k)
      <==> Accepted(block, meaningful, minLen, i, j) && k == Run(block, i, j, 0)
  {
    if i <= j <= |block| {
      RunIsLongest(block, i, j, 0, k);
      RunIsLongest(block, i, j, 0, k + 1);
    }
  }

  /** A repeat is found exactly when some worthy one cannot go on; it is the longest such, and the first of its length. */
  lemma FindsWholeRepeats<T>(block: seq<T>, meaningful: T -> bool, minLen: nat, best: Option<(nat, nat)>)
    requires IsBest(block, meaningful, minLen, |block|, 0, best)
    ensures best.Some? <==>
              exists i: nat, j: nat, k: nat :: IsWorthy(block, meaningful, minLen, i, j, k) && IsWhole(block, i, j, k)
    ensures best.Some? ==>
              && (exists j: nat :: IsWorthy(block, meaningful, minLen, best.value.0, j, best.value.1))
              && forall i: nat, j: nat, k: nat | IsWorthy(block, meaningful, minLen, i, j, k) && IsWhole(block, i, j, k) ::
                   k < best.value.1 || (k == best.value.1 && best.value.0 <= i)
  {
    forall i: nat, j: nat, k: nat
      ensures
        IsWorthy(block, meaningful, minLen, i, j, k) && IsWhole(block, i, j, k)
        <==> Accepted(block, meaningful, minLen, i, j) && k == Run(block, i, j, 0)
    {
      AcceptedIsWhole(block, meaningful, minLen, i, j, k);
    }
    if best.Some? {
      var q: nat :| Accepted(block, meaningful, minLen, best.value.0, q) && Run(block, best.value.0, q, 0) == best.value.1;
      assert IsWorthy(block, meaningful, minLen, best.value.0, q, best.value.1);
    }
  }

  /** Where every line means something, a repeat is found exactly when two lines or more, and minLen or more, are repeated. */
  lemma FindsWhatRepeats<T>(block: seq<T>, meaningful: T -> bool, minLen: nat, best: Option<(nat, nat)>)
    requires IsBest(block, meaningful, minLen, |block|, 0, best)
    requires forall n | 0 <= n < |block| :: meaningful(block[n])
    ensures best.Some? <==> exists i: nat, j: nat, k: nat :: IsRepeat(block, i, j, k) && k >= minLen && k >= 2
  {
    FindsWholeRepeats(block, meaningful, minLen, best);
    if i: nat, j: nat, k: nat :| IsRepeat(block, i, j, k) && k >= minLen && k >= 2 {
      RunIsLongest(block, i, j, 0, k);
      AllCount(block, meaningful, i, Run(block, i, j, 0));
      AcceptedIsWhole(block, meaningful, minLen, i, j, Run(block, i, j, 0));
    }
  }

  lemma {:induction false} AllCount<T>(block: seq<T>, meaningful: T -> bool, i: nat, k: nat)
    requires i + k <= |block| && forall n | 0 <= n < |block| :: meaningful(block[n])
    ensures CountMeaningful(block, meaningful, i, k) == k
  {
    if k > 0 {
      AllCount(block, meaningful, i, k - 1);
    }
  }

  /** A worthy repeat that goes on with lines that mean nothing is missed. */
  lemma LongTailIsMissed(best: Option<(nat, nat)>)
    requires IsBest([9, 9, 1, 2, 3, 9, 9, 1, 2, 3], (n: int) => n == 9, 4, 10, 0, best)
    ensures IsWorthy([9, 9, 1, 2, 3, 9, 9, 1, 2, 3], (n: int) => n == 9, 4, 0, 5, 4)
    ensures best == None
  {
    var block, meaningful := [9, 9, 1, 2, 3, 9, 9, 1, 2, 3], (n: int) => n == 9;
    assert block[0..4] == [9, 9, 1, 2] == block[5..9];
  }
}
