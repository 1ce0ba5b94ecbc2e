/** Pairing added and removed list lines of a diff, and what is left over in each hunk. */
module DiffPairing {

  /** How many of the first n entries are x. */
  function Count<K(==)>(keys: seq<K>, n: nat, x: K): (c: nat)
    requires n <= |keys|
    ensures c <= n
  {
    if n == 0 then 0 else Count(keys, n - 1, x) + if keys[n - 1] == x then 1 else 0
  }

  /** The entry at i is among the first so many of its kind. */
  predicate Among<K(==)>(keys: seq<K>, i: nat, limit: nat)
    requires i < |keys|
  {
    Count(keys, i, keys[i]) < limit
  }

  /** The positions below n that hold x, in order. */
  function Positions<K(==)>(keys: seq<K>, n: nat, x: K): seq<nat>
    requires n <= |keys|
  {
    if n == 0 then [] else Positions(keys, n - 1, x) + if keys[n - 1] == x then [n - 1] else []
  }

  lemma {:induction false} PositionsHold<K>(keys: seq<K>, n: nat, x: K)
    requires n <= |keys|
    ensures |Positions(keys, n, x)| == Count(keys, n, x)
    ensures
      forall t | 0 <= t < |Positions(keys, n, x)| ::
        var p := Positions(keys, n, x)[t];
        p < n && keys[p] == x && Count(keys, p, x) == t
  {
    if n > 0 {
      PositionsHold(keys, n - 1, x);
    }
  }

  lemma {:induction false} CountGrows<K>(keys: seq<K>, i: nat, j: nat, x: K)
    requires i <= j <= |keys|
    ensures Count(keys, i, x) <= Count(keys, j, x)
    ensures i < j && keys[i] == x ==> Count(keys, i, x) < Count(keys, j, x)
    decreases j
  {
    if i < j {
      CountGrows(keys, i, j - 1, x);
    }
  }

  function Lookup<K(==)>(groups: map<K, seq<nat>>, x: K): seq<nat> {
    if x in groups then groups[x] else []
  }

  /** Groups positions by what they hold. */
  method GroupPositions<K(==,!new)>(keys: seq<K>) returns (groups: map<K, seq<nat>>)
    ensures forall x :: Lookup(groups, x) == Positions(keys, |keys|, x)
  {
    groups := map[];
    for i := 0 to |keys|
      invariant forall x :: Lookup(groups, x) == Positions(keys, i, x)
    {
      var x := keys[i];
      if x in groups {
        groups := groups[x := groups[x] + [i]];
      } else {
        groups := groups[x := [i]];
      }
    }
  }

  /** The first position not yet paired, found by walking the list. */
  method FindUnpaired(positions: seq<nat>, paired: array<bool>) returns (t: nat)
    requires forall s | 0 <= s < |positions| :: positions[s] < paired.Length
    ensures t <= |positions| && (forall s | 0 <= s < t :: paired[positions[s]])
    ensures t < |positions| ==> !paired[positions[t]]
  {
    t := 0;
    while t < |positions| && paired[positions[t]]
      invariant t <= |positions| && forall s | 0 <= s < t :: paired[positions[s]]
    {
      t := t + 1;
    }
  }

  /** The removed entries taken once the first n added ones have chosen. */
  ghost predicate TakenBy<K>(added: seq<K>, n: nat, removed: seq<K>, taken: seq<bool>)
    requires n <= |added|
  {
    |taken| == |removed| && forall j | 0 <= j < |removed| :: taken[j] == Among(removed, j, Count(added, n, removed[j]))
  }

  ghost predicate Chosen<K>(added: seq<K>, n: nat, removed: seq<K>, chosen: seq<bool>)
    requires n <= |added|
  {
    |chosen| == n && forall i | 0 <= i < n :: chosen[i] == Among(added, i, Count(removed, |removed|, added[i]))
  }

  /** Greedy pairing: each added entry takes the first removed entry of its kind that is still free. */
  method Pair<K(==,!new)>(added: seq<K>, removed: seq<K>) returns (addedPaired: seq<bool>, removedPaired: array<bool>)
    ensures fresh(removedPaired)
    ensures Chosen(added, |added|, removed, addedPaired)
    ensures TakenBy(added, |added|, removed, removedPaired[..])
  {
    var byKey := GroupPositions(removed);
    removedPaired := new bool[|removed|](_ => false);
    assert TakenBy(added, 0, removed, removedPaired[..]);
    addedPaired := PairAll(added, removed, byKey, removedPaired);
  }

  method PairAll<K(==,!new)>(added: seq<K>, removed: seq<K>, byKey: map<K, seq<nat>>, removedPaired: array<bool>) returns (addedPaired: seq<bool>)
    requires forall i | 0 <= i < |added| :: Lookup(byKey, added[i]) == Positions(removed, |removed|, added[i])
    requires TakenBy(added, 0, removed, removedPaired[..])
    modifies removedPaired
    ensures Chosen(added, |added|, removed, addedPaired)
    ensures TakenBy(added, |added|, removed, removedPaired[..])
  {
    addedPaired := [];
    for i := 0 to |added|
      invariant Chosen(added, i, removed, addedPaired)
      invariant TakenBy(added, i, removed, removedPaired[..])
    {
      var found := PairNext(added, i, removed, Lookup(byKey, added[i]), removedPaired);
      addedPaired := addedPaired + [found];
    }
  }

  method PairNext<K(==)>(added: seq<K>, i: nat, removed: seq<K>, positions: seq<nat>, removedPaired: array<bool>) returns (found: bool)
    requires i < |added| && positions == Positions(removed, |removed|, added[i])
    requires TakenBy(added, i, removed, removedPaired[..])
    modifies removedPaired
    ensures TakenBy(added, i + 1, removed, removedPaired[..])
    ensures found == Among(added, i, Count(removed, |removed|, added[i]))
  {
    ghost var before := removedPaired[..];
    PositionsHold(removed, |removed|, added[i]);
    var t := FindUnpaired(positions, removedPaired);
    FreeIsNext(removed, added[i], Count(added, i, added[i]), t, before);
    PairStep(added, removed, i, t, before);
    found := t < |positions|;
    if found {
      removedPaired[positions[t]] := true;
      assert removedPaired[..] == before[positions[t] := true];
    }
  }

  lemma PairStep<K>(added: seq<K>, removed: seq<K>, i: nat, t: nat, taken: seq<bool>)
    requires i < |added| && TakenBy(added, i, removed, taken)
    requires t <= |Positions(removed, |removed|, added[i])|
    requires t < |Positions(removed, |removed|, added[i])| ==> t == Count(added, i, added[i])
    requires t == |Positions(removed, |removed|, added[i])| ==> t <= Count(added, i, added[i])
    ensures
      var positions := Positions(removed, |removed|, added[i]);
      && (t < |positions| ==> positions[t] < |taken|)
      && TakenBy(added, i + 1, removed, if t < |positions| then taken[positions[t] := true] else taken)
  {
    var x, positions := added[i], Positions(removed, |removed|, added[i]);
    PositionsHold(removed, |removed|, x);
    if t < |positions| {
      OnlyOneAt(removed, positions[t]);
    }
    forall j | 0 <= j < |removed| && removed[j] == x
      ensures Count(removed, j, x) < |positions|
    {
      CountGrows(removed, j, |removed|, x);
    }
  }

  /** Among the positions of x, those before the limit are taken: the first free one is at the limit. */
  lemma FreeIsNext<K>(keys: seq<K>, x: K, limit: nat, t: nat, paired: seq<bool>)
    requires |paired| == |keys|
    requires forall j | 0 <= j < |keys| && keys[j] == x :: paired[j] == Among(keys, j, limit)
    requires t <= |Positions(keys, |keys|, x)|
    requires forall s | 0 <= s < t :: Positions(keys, |keys|, x)[s] < |paired| && paired[Positions(keys, |keys|, x)[s]]
    requires
      t < |Positions(keys, |keys|, x)|
      ==> Positions(keys, |keys|, x)[t] < |paired| && !paired[Positions(keys, |keys|, x)[t]]
    ensures t < |Positions(keys, |keys|, x)| ==> t == limit
    ensures t == |Positions(keys, |keys|, x)| ==> Count(keys, |keys|, x) <= limit
  {
    var positions := Positions(keys, |keys|, x);
    PositionsHold(keys, |keys|, x);
    if t < |positions| {
      assert !Among(keys, positions[t], limit);
    }
    if t > 0 {
      assert paired[positions[t - 1]];
      assert Among(keys, positions[t - 1], limit);
    }
  }

  /** Two positions with the same entry have different counts. */
  lemma OnlyOneAt<K>(keys: seq<K>, p: nat)
    requires p < |keys|
    ensures forall j | 0 <= j < |keys| && keys[j] == keys[p] && Count(keys, j, keys[j]) == Count(keys, p, keys[p]) :: j == p
  {
    forall j | 0 <= j < |keys| && keys[j] == keys[p] && j != p
      ensures Count(keys, j, keys[j]) != Count(keys, p, keys[p])
    {
      if j < p {
        CountGrows(keys, j, p, keys[p]);
      } else {
        CountGrows(keys, p, j, keys[p]);
      }
    }
  }

  /** How many entries of a kind are paired. */
  function CountAmong<K(==)>(keys: seq<K>, n: nat, limit: nat, x: K): nat
    requires n <= |keys|
  {
    if n == 0 then 0
    else CountAmong(keys, n - 1, limit, x) + if keys[n - 1] == x && Among(keys, n - 1, limit) then 1 else 0
  }

  function Min(a: nat, b: nat): nat {
    if a < b then a else b
  }

  lemma {:induction false} FirstOnesAreAmong<K>(keys: seq<K>, n: nat, limit: nat, x: K)
    requires n <= |keys|
    ensures CountAmong(keys, n, limit, x) == Min(Count(keys, n, x), limit)
  {
    if n > 0 {
      FirstOnesAreAmong(keys, n - 1, limit, x);
    }
  }

  /** Of each kind the greedy pairing pairs as many added as removed entries, and as many as there can be. */
  lemma PairsAreMinimum<K>(added: seq<K>, removed: seq<K>, x: K)
    ensures
      var a, r := Count(added, |added|, x), Count(removed, |removed|, x);
      CountAmong(added, |added|, r, x) == CountAmong(removed, |removed|, a, x) == Min(a, r)
  {
    FirstOnesAreAmong(added, |added|, Count(removed, |removed|, x), x);
    FirstOnesAreAmong(removed, |removed|, Count(added, |added|, x), x);
  }

  /** Some other pairing: added positions to removed ones of the same kind, no removed one twice. */
  ghost predicate Matching<K>(added: seq<K>, removed: seq<K>, m: map<nat, nat>) {
    && (forall i | i in m :: i < |added| && m[i] < |removed| && added[i] == removed[m[i]])
    && forall i, j | i in m && j in m && m[i] == m[j] :: i == j
  }

  function PositionSet<K(==)>(keys: seq<K>, n: nat, x: K): (s: set<nat>)
    requires n <= |keys|
    ensures forall i :: i in s <==> 0 <= i < n && keys[i] == x
    ensures |s| == Count(keys, n, x)
  {
    if n == 0 then {} else PositionSet(keys, n - 1, x) + if keys[n - 1] == x then {n - 1} else {}
  }

  lemma {:induction false} SubsetIsSmaller(a: set<nat>, b: set<nat>)
    requires a <= b
    ensures |a| <= |b|
  {
    if a != {} {
      var x :| x in a;
      SubsetIsSmaller(a - {x}, b - {x});
    }
  }

  lemma {:induction false} ImageIsAsLarge(s: set<nat>, m: map<nat, nat>, t: set<nat>)
    requires forall i | i in s :: i in m && m[i] in t
    requires forall i, j | i in s && j in s && m[i] == m[j] :: i == j
    ensures |s| <= |t|
  {
    if s != {} {
      var x :| x in s;
      ImageIsAsLarge(s - {x}, m, t - {m[x]});
    }
  }

  /** No pairing pairs more entries of any kind than the greedy one. */
  lemma GreedyIsMaximum<K>(added: seq<K>, removed: seq<K>, m: map<nat, nat>, x: K)
    requires Matching(added, removed, m)
    ensures |set i | i in m && added[i] == x| <= CountAmong(added, |added|, Count(removed, |removed|, x), x)
  {
    var s := set i | i in m && added[i] == x;
    SubsetIsSmaller(s, PositionSet(added, |added|, x));
    ImageIsAsLarge(s, m, PositionSet(removed, |removed|, x));
    PairsAreMinimum(added, removed, x);
  }

  /** How many of the first n entries are in hunk h and not paired. */
  function CountFree<H(==)>(hunks: seq<H>, paired: seq<bool>, n: nat, h: H): nat
    requires n <= |hunks| && n <= |paired|
  {
    if n == 0 then 0
    else CountFree(hunks, paired, n - 1, h) + if !paired[n - 1] && hunks[n - 1] == h then 1 else 0
  }

  /** An added line is returned when its hunk has no unpaired removal left to set against it. */
  predicate Returned<H(==)>(hunks: seq<H>, paired: seq<bool>, i: nat, gone: nat)
    requires i < |hunks| && i < |paired|
  {
    !paired[i] && CountFree(hunks, paired, i, hunks[i]) >= gone
  }

  function CountReturned<H(==)>(hunks: seq<H>, paired: seq<bool>, n: nat, gone: nat, h: H): nat
    requires n <= |hunks| && n <= |paired|
  {
    if n == 0 then 0
    else CountReturned(hunks, paired, n - 1, gone, h) + if hunks[n - 1] == h && Returned(hunks, paired, n - 1, gone) then 1 else 0
  }

  /** Each hunk returns what its unpaired additions exceed its unpaired removals by. */
  lemma {:induction false} ReturnedIsExcess<H>(hunks: seq<H>, paired: seq<bool>, n: nat, gone: nat, h: H)
    requires n <= |hunks| && n <= |paired|
    ensures
      var free := CountFree(hunks, paired, n, h);
      CountReturned(hunks, paired, n, gone, h) == if free > gone then free - gone else 0
  {
    if n > 0 {
      ReturnedIsExcess(hunks, paired, n - 1, gone, h);
    }
  }

  lemma {:induction false} FreeGrows<H>(hunks: seq<H>, paired: seq<bool>, i: nat, j: nat, h: H)
    requires i <= j <= |hunks| && j <= |paired|
    ensures CountFree(hunks, paired, i, h) <= CountFree(hunks, paired, j, h)
    decreases j
  {
    if i < j {
      FreeGrows(hunks, paired, i, j - 1, h);
    }
  }

  /** The lines a hunk returns are its last unpaired ones. */
  lemma LastAreReturned<H>(hunks: seq<H>, paired: seq<bool>, i: nat, j: nat, gone: nat)
    requires i < j < |hunks| && j < |paired| && hunks[i] == hunks[j] && !paired[j]
    requires Returned(hunks, paired, i, gone)
    ensures Returned(hunks, paired, j, gone)
  {
    FreeGrows(hunks, paired, i, j, hunks[i]);
  }

  function NumberOf<H(==)>(counts: map<H, nat>, h: H): nat {
    if h in counts then counts[h] else 0
  }

  method CountUnpaired<H(==,!new)>(hunks: seq<H>, paired: seq<bool>) returns (counts: map<H, nat>)
    requires |hunks| == |paired|
    ensures forall h :: NumberOf(counts, h) == CountFree(hunks, paired, |hunks|, h)
  {
    counts := map[];
    for j := 0 to |hunks|
      invariant forall h :: NumberOf(counts, h) == CountFree(hunks, paired, j, h)
    {
      if paired[j] {
        continue;
      }
      counts := counts[hunks[j] := NumberOf(counts, hunks[j]) + 1];
    }
  }

  datatype Candidate<P, H> = Candidate(path: P, line: nat, hunk: H)

  function Hunks<P, H>(candidates: seq<Candidate<P, H>>): (hs: seq<H>)
    ensures |hs| == |candidates| && forall i | 0 <= i < |hs| :: hs[i] == candidates[i].hunk
  {
    seq(|candidates|, i requires 0 <= i < |candidates| => candidates[i].hunk)
  }

  /** The line numbers returned for a path from the first n candidates. */
  function LinesFor<P(==), H(==)>(candidates: seq<Candidate<P, H>>, paired: seq<bool>, gone: seq<nat>, n: nat, path: P): set<nat>
    requires n <= |candidates| == |paired| == |gone|
  {
    if n == 0 then {}
    else
      LinesFor(candidates, paired, gone, n - 1, path)
      + if candidates[n - 1].path == path && Returned(Hunks(candidates), paired, n - 1, gone[n - 1]) then {candidates[n - 1].line} else {}
  }

  function LinesOf<P(==)>(lines: map<P, set<nat>>, path: P): set<nat> {
    if path in lines then lines[path] else {}
  }

  /** Unpaired removals of the hunk of each candidate. */
  function GoneFor<H(==)>(hunks: seq<H>, removedHunks: seq<H>, removedPaired: seq<bool>): (gone: seq<nat>)
    requires |removedHunks| == |removedPaired|
    ensures |gone| == |hunks|
    ensures forall i | 0 <= i < |hunks| :: gone[i] == CountFree(removedHunks, removedPaired, |removedHunks|, hunks[i])
  {
    seq(|hunks|, i requires 0 <= i < |hunks| => CountFree(removedHunks, removedPaired, |removedHunks|, hunks[i]))
  }

  /** Sets unpaired additions against unpaired removals of the same hunk, and returns the rest by path. */
  method CollectLines<P(==,!new), H(==,!new)>(candidates: seq<Candidate<P, H>>, paired: seq<bool>, counts: map<H, nat>, ghost gone: seq<nat>)
    returns (lines: map<P, set<nat>>)
    requires |candidates| == |paired| == |gone|
    requires forall i | 0 <= i < |candidates| :: gone[i] == NumberOf(counts, candidates[i].hunk)
    ensures forall path :: LinesOf(lines, path) == LinesFor(candidates, paired, gone, |candidates|, path)
  {
    lines := map[];
    var left := counts;
    ghost var hunks := Hunks(candidates);
    for i := 0 to |candidates|
      invariant forall path :: LinesOf(lines, path) == LinesFor(candidates, paired, gone, i, path)
      invariant forall h :: Leaves(NumberOf(counts, h), CountFree(hunks, paired, i, h), NumberOf(left, h))
    {
      if paired[i] {
        continue;
      }
      var c := candidates[i];
      var count := NumberOf(left, c.hunk);
      assert Leaves(NumberOf(counts, c.hunk), CountFree(hunks, paired, i, c.hunk), count);
      if count > 0 {
        left := left[c.hunk := count - 1];
        continue;
      }
      lines := lines[c.path := LinesOf(lines, c.path) + {c.line}];
    }
  }

  predicate Leaves(total: nat, used: nat, left: nat) {
    left == if total > used then total - used else 0
  }
}

/** Walking the lines of a diff: which list lines each hunk adds and removes, and where they are in the new file. */
module DiffScan {
  import opened ChangelogLines
  import opened DiffPairing

  /** A line of a diff and what it is: at most one of the flags holds; the text is what follows the marker. */
  datatype DiffLine<T> = DiffLine(isTarget: bool, isFile: bool, isHunk: bool, isPlus: bool, isMinus: bool, isSame: bool, text: T, number: nat, isItem: bool)

  /** A list line that a hunk adds or removes; a removed one has no line in the new file. */
  datatype ListLine<T> = ListLine(path: T, line: nat, text: T, hunk: nat)

  /** The path is none outside a file; the hunk index starts at -1. */
  datatype Scan<T> = Scan(path: T, hunk: int, newLine: nat, added: seq<ListLine<T>>, removed: seq<ListLine<T>>)

  /** What a line inside a hunk adds. */
  function AddedBy<T>(path: T, hunk: nat, d: DiffLine<T>, n: nat): seq<ListLine<T>> {
    if d.isPlus && d.isItem then [ListLine(path, n, d.text, hunk)] else []
  }

  function RemovedBy<T>(path: T, hunk: nat, d: DiffLine<T>): seq<ListLine<T>> {
    if d.isMinus && d.isItem then [ListLine(path, 0, d.text, hunk)] else []
  }

  /** Whether the line is there in the new file. */
  function Advance<T>(d: DiffLine<T>): nat {
    if d.isPlus || d.isSame then 1 else 0
  }

  function ScanLine<T(==)>(none: T, s: Scan<T>, d: DiffLine<T>): Scan<T> {
    if d.isTarget then s.(path := d.text)
    else if d.isFile then s.(path := none, hunk := -1)
    else if d.isHunk then s.(newLine := d.number, hunk := s.hunk + 1)
    else if s.path == none || s.hunk < 0 then s
    else Scan(s.path, s.hunk, s.newLine + Advance(d), s.added + AddedBy(s.path, s.hunk, d, s.newLine), s.removed + RemovedBy(s.path, s.hunk, d))
  }

  function ScanLines<T(==)>(none: T, s: Scan<T>, lines: seq<DiffLine<T>>): Scan<T>
    decreases |lines|
  {
    if lines == [] then s else ScanLines(none, ScanLine(none, s, lines[0]), lines[1..])
  }

  lemma NextLine<T>(none: T, s: Scan<T>, lines: seq<DiffLine<T>>, i: nat)
    requires i < |lines|
    ensures ScanLines(none, s, lines[i..]) == ScanLines(none, ScanLine(none, s, lines[i]), lines[i + 1..])
  {
    assert lines[i..][1..] == lines[i + 1..];
  }

  method ReadDiff<T(==)>(none: T, lines: seq<DiffLine<T>>) returns (added: seq<ListLine<T>>, removed: seq<ListLine<T>>)
    requires forall i | 0 <= i < |lines| :: !(lines[i].isPlus && (lines[i].isMinus || lines[i].isSame)) && !(lines[i].isMinus && lines[i].isSame)
    ensures var s := ScanLines(none, Scan(none, -1, 0, [], []), lines); added == s.added && removed == s.removed
  {
    var path, hunk, newLine: nat := none, -1, 0;
    added, removed := [], [];
    ghost var want := ScanLines(none, Scan(none, -1, 0, [], []), lines);
    assert lines[0..] == lines;
    for i := 0 to |lines|
      invariant hunk >= -1
      invariant ScanLines(none, Scan(path, hunk, newLine, added, removed), lines[i..]) == want
    {
      NextLine(none, Scan(path, hunk, newLine, added, removed), lines, i);
      var d := lines[i];
      assert added + [] == added && removed + [] == removed;
      if d.isTarget {
        path := d.text;
      } else if d.isFile {
        path, hunk := none, -1;
      } else if d.isHunk {
        newLine, hunk := d.number, hunk + 1;
      } else if path != none && hunk >= 0 {
        if d.isPlus {
          if d.isItem {
            added := added + [ListLine(path, newLine, d.text, hunk)];
          }
          newLine := newLine + 1;
        } else if d.isMinus {
          if d.isItem {
            removed := removed + [ListLine(path, 0, d.text, hunk)];
          }
        } else if d.isSame {
          newLine := newLine + 1;
        }
      }
    }
  }

  // ----- A diff as it is written

  /** A line inside a hunk. */
  predicate IsChange<T>(d: DiffLine<T>) {
    !d.isTarget && !d.isFile && !d.isHunk
  }

  datatype Hunk<T> = Hunk(header: DiffLine<T>, changes: seq<DiffLine<T>>)

  datatype FileDiff<T> = FileDiff(head: seq<DiffLine<T>>, target: DiffLine<T>, hunks: seq<Hunk<T>>)

  function HunkLines<T>(hunks: seq<Hunk<T>>): seq<DiffLine<T>> {
    if hunks == [] then [] else [hunks[0].header] + (hunks[0].changes + HunkLines(hunks[1..]))
  }

  /** A line that starts the file, other lines, the target, the hunks. */
  function FileLines<T>(f: FileDiff<T>): seq<DiffLine<T>> {
    f.head + ([f.target] + HunkLines(f.hunks))
  }

  predicate GoodHunk<T>(h: Hunk<T>) {
    h.header.isHunk && !h.header.isTarget && !h.header.isFile && forall i | 0 <= i < |h.changes| :: IsChange(h.changes[i])
  }

  predicate GoodFile<T(==)>(none: T, f: FileDiff<T>) {
    && f.head != [] && f.head[0].isFile && !f.head[0].isTarget
    && (forall i | 1 <= i < |f.head| :: IsChange(f.head[i]))
    && f.target.isTarget && f.target.text != none
    && forall i | 0 <= i < |f.hunks| :: GoodHunk(f.hunks[i])
  }

  /** The list lines that changes add, with their lines in the new file. */
  function AddedIn<T>(path: T, hunk: nat, changes: seq<DiffLine<T>>, n: nat): seq<ListLine<T>> {
    if changes == [] then []
    else AddedBy(path, hunk, changes[0], n) + AddedIn(path, hunk, changes[1..], n + Advance(changes[0]))
  }

  function RemovedIn<T>(path: T, hunk: nat, changes: seq<DiffLine<T>>): seq<ListLine<T>> {
    if changes == [] then [] else RemovedBy(path, hunk, changes[0]) + RemovedIn(path, hunk, changes[1..])
  }

  function AddedInHunks<T>(path: T, hunk: nat, hunks: seq<Hunk<T>>): seq<ListLine<T>>
    decreases |hunks|
  {
    if hunks == [] then []
    else AddedIn(path, hunk, hunks[0].changes, hunks[0].header.number) + AddedInHunks(path, hunk + 1, hunks[1..])
  }

  function RemovedInHunks<T>(path: T, hunk: nat, hunks: seq<Hunk<T>>): seq<ListLine<T>>
    decreases |hunks|
  {
    if hunks == [] then [] else RemovedIn(path, hunk, hunks[0].changes) + RemovedInHunks(path, hunk + 1, hunks[1..])
  }

  lemma {:induction false} ScanConcat<T>(none: T, s: Scan<T>, a: seq<DiffLine<T>>, b: seq<DiffLine<T>>)
    ensures ScanLines(none, s, a + b) == ScanLines(none, ScanLines(none, s, a), b)
    decreases |a|
  {
    if a == [] {
      assert a + b == b;
    } else {
      assert (a + b)[1..] == a[1..] + b;
      ScanConcat(none, ScanLine(none, s, a[0]), a[1..], b);
    }
  }

  /** The lines of a hunk are read as what they add and remove. */
  lemma {:induction false} ChangesScan<T>(none: T, s: Scan<T>, changes: seq<DiffLine<T>>)
    requires s.path != none && s.hunk >= 0 && forall i | 0 <= i < |changes| :: IsChange(changes[i])
    ensures
      var t := ScanLines(none, s, changes);
      && t.path == s.path && t.hunk == s.hunk
      && t.added == s.added + AddedIn(s.path, s.hunk, changes, s.newLine)
      && t.removed == s.removed + RemovedIn(s.path, s.hunk, changes)
    decreases |changes|
  {
    if changes == [] {
      assert s.added + [] == s.added && s.removed + [] == s.removed;
    } else {
      var d, rest := changes[0], changes[1..];
      assert IsChange(d);
      ChangesScan(none, ScanLine(none, s, d), rest);
      Regroup(s.added, AddedBy(s.path, s.hunk, d, s.newLine), AddedIn(s.path, s.hunk, rest, s.newLine + Advance(d)));
      Regroup(s.removed, RemovedBy(s.path, s.hunk, d), RemovedIn(s.path, s.hunk, rest));
    }
  }

  lemma HunkScan<T>(none: T, s: Scan<T>, h: Hunk<T>, tail: seq<DiffLine<T>>) returns (t: Scan<T>)
    requires s.path != none && s.hunk >= -1 && GoodHunk(h)
    ensures ScanLines(none, s, [h.header] + (h.changes + tail)) == ScanLines(none, t, tail)
    ensures t.path == s.path && t.hunk == s.hunk + 1
    ensures t.added == s.added + AddedIn(s.path, s.hunk + 1, h.changes, h.header.number)
    ensures t.removed == s.removed + RemovedIn(s.path, s.hunk + 1, h.changes)
  {
    var s1 := ScanLine(none, s, h.header);
    t := ScanLines(none, s1, h.changes);
    assert ([h.header] + (h.changes + tail))[1..] == h.changes + tail;
    ChangesScan(none, s1, h.changes);
    ScanConcat(none, s1, h.changes, tail);
  }

  lemma {:induction false} HunksScan<T>(none: T, s: Scan<T>, hunks: seq<Hunk<T>>)
    requires s.path != none && s.hunk >= -1 && forall i | 0 <= i < |hunks| :: GoodHunk(hunks[i])
    ensures
      var t := ScanLines(none, s, HunkLines(hunks));
      && t.added == s.added + AddedInHunks(s.path, s.hunk + 1, hunks)
      && t.removed == s.removed + RemovedInHunks(s.path, s.hunk + 1, hunks)
    decreases |hunks|
  {
    if hunks == [] {
      assert s.added + [] == s.added && s.removed + [] == s.removed;
    } else {
      var h, rest := hunks[0], hunks[1..];
      assert GoodHunk(h);
      var t := HunkScan(none, s, h, HunkLines(rest));
      HunksScan(none, t, rest);
      Regroup(s.added, AddedIn(s.path, s.hunk + 1, h.changes, h.header.number), AddedInHunks(s.path, s.hunk + 2, rest));
      Regroup(s.removed, RemovedIn(s.path, s.hunk + 1, h.changes), RemovedInHunks(s.path, s.hunk + 2, rest));
    }
  }

  lemma {:induction false} HeadScan<T>(none: T, s: Scan<T>, head: seq<DiffLine<T>>)
    requires s.path == none && forall i | 0 <= i < |head| :: IsChange(head[i])
    ensures ScanLines(none, s, head) == s
    decreases |head|
  {
    if head != [] {
      assert IsChange(head[0]);
      HeadScan(none, s, head[1..]);
    }
  }

  /** A file's part of the diff is read as exactly the list lines its hunks add and remove, in order. */
  lemma FileScan<T>(none: T, s: Scan<T>, f: FileDiff<T>)
    requires GoodFile(none, f)
    ensures
      var t, path := ScanLines(none, s, FileLines(f)), f.target.text;
      && t.added == s.added + AddedInHunks(path, 0, f.hunks)
      && t.removed == s.removed + RemovedInHunks(path, 0, f.hunks)
  {
    var s1 := ScanLine(none, s, f.head[0]);
    HeadScan(none, s1, f.head[1..]);
    ScanConcat(none, s, f.head, [f.target] + HunkLines(f.hunks));
    var s2 := ScanLine(none, s1, f.target);
    assert ([f.target] + HunkLines(f.hunks))[1..] == HunkLines(f.hunks);
    HunksScan(none, s2, f.hunks);
  }

  /** From line n on, the file holds what the changes add and keep. */
  ghost predicate Fits<T>(changes: seq<DiffLine<T>>, n: nat, content: seq<T>) {
    changes != [] ==>
      && (Advance(changes[0]) == 1 ==> 1 <= n <= |content| && content[n - 1] == changes[0].text)
      && Fits(changes[1..], n + Advance(changes[0]), content)
  }

  ghost predicate HunksFit<T>(hunks: seq<Hunk<T>>, content: seq<T>) {
    forall i | 0 <= i < |hunks| :: Fits(hunks[i].changes, hunks[i].header.number, content)
  }

  /** The line says what it says at its place in the file. */
  ghost predicate InPlace<T>(l: ListLine<T>, content: seq<T>) {
    1 <= l.line <= |content| && content[l.line - 1] == l.text
  }

  lemma {:induction false} AddedAreInPlace<T>(path: T, hunk: nat, changes: seq<DiffLine<T>>, n: nat, content: seq<T>)
    requires Fits(changes, n, content)
    ensures forall i | 0 <= i < |AddedIn(path, hunk, changes, n)| :: InPlace(AddedIn(path, hunk, changes, n)[i], content)
    decreases |changes|
  {
    if changes != [] {
      AddedAreInPlace(path, hunk, changes[1..], n + Advance(changes[0]), content);
    }
  }

  /** When the diff fits the new file, every added list line is numbered where the file has it. */
  lemma {:induction false} NumbersAreRight<T>(path: T, hunk: nat, hunks: seq<Hunk<T>>, content: seq<T>)
    requires HunksFit(hunks, content)
    ensures forall i | 0 <= i < |AddedInHunks(path, hunk, hunks)| :: InPlace(AddedInHunks(path, hunk, hunks)[i], content)
    decreases |hunks|
  {
    if hunks != [] {
      AddedAreInPlace(path, hunk, hunks[0].changes, hunks[0].header.number, content);
      NumbersAreRight(path, hunk + 1, hunks[1..], content);
    }
  }
}

/** The promotable lines of a diff text. */
module DiffReader {
  import opened Wrappers
  import opened Decimal
  import opened ChangelogText
  import opened DiffPairing
  import opened DiffScan

  predicate StartsWith(s: string, prefix: string) {
    |prefix| <= |s| && s[..|prefix|] == prefix
  }

  /** First position from i on that is not a digit. */
  function SkipDigits(s: string, i: nat): (k: nat)
    requires i <= |s|
    ensures i <= k <= |s|
    ensures forall j | i <= j < k :: IsDigit(s[j])
    decreases |s| - i
  {
    if i < |s| && IsDigit(s[i]) then SkipDigits(s, i + 1) else i
  }

  /** Skips a comma and digits, if both are there. */
  function SkipCount(s: string, i: nat): (k: nat)
    requires i <= |s|
    ensures i <= k <= |s|
  {
    if i < |s| && s[i] == ',' && SkipDigits(s, i + 1) > i + 1 then SkipDigits(s, i + 1) else i
  }

  /** The first new line of a hunk header: "@@ -o,m +n,k @@". */
  function ParseHunk(s: string): Option<nat> {
    if !StartsWith(s, "@@ -") then None
    else
      var a := SkipDigits(s, 4);
      var b := SkipCount(s, a);
      if a == 4 || !StartsWith(s[b..], " +") then None
      else
        var c := SkipDigits(s, b + 2);
        if c == b + 2 || !StartsWith(s[SkipCount(s, c)..], " @@") then None else Some(DigitsValue(s[b + 2..c]))
  }

  function Marked(raw: string): DiffLine<string> {
    var text := if raw == "" then "" else raw[1..];
    DiffLine(false, false, false, raw != "" && raw[0] == '+', raw != "" && raw[0] == '-', raw != "" && raw[0] == ' ', text, 0, IsListItem(text))
  }

  function LexDiff(raw: string): DiffLine<string> {
    if StartsWith(raw, "+++ b/") then DiffLine(true, false, false, false, false, false, raw[6..], 0, false)
    else if StartsWith(raw, "diff --git ") then DiffLine(false, true, false, false, false, false, "", 0, false)
    else
      match ParseHunk(raw)
      case Some(n) => DiffLine(false, false, true, false, false, false, "", n, false)
      case None => Marked(raw)
  }

  /** A written change reads back as itself, unless it is an added line that then looks like a target. */
  lemma ChangeReadsBack(marker: char, text: string)
    requires marker == '+' || marker == '-' || marker == ' '
    ensures LexDiff([marker] + text) == Marked([marker] + text) <==> !(marker == '+' && StartsWith(text, "++ b/"))
    ensures Marked([marker] + text).text == text
  {
    var raw := [marker] + text;
    assert raw[0] == marker && raw[1..] == text;
    assert "@@ -"[0] == '@' && "diff --git "[0] == 'd' && "+++ b/"[0] == '+';
    if marker == '+' && StartsWith(text, "++ b/") {
      assert raw[..6] == ['+'] + text[..5] == "+++ b/";
    } else if marker == '+' && |raw| >= 6 {
      assert raw[..6][1..] == text[..5] && "+++ b/"[1..] == "++ b/";
    }
  }

  /** A carriage return goes when a newline follows it. */
  function DropReturns(s: string): string {
    if s == "" then ""
    else if s[0] == '\r' && |s| > 1 && s[1] == '\n' then "\n" + DropReturns(s[2..])
    else [s[0]] + DropReturns(s[1..])
  }

  function DiffLines(diffText: string): (ds: seq<DiffLine<string>>) {
    var lines := Split(DropReturns(diffText));
    seq(|lines|, i requires 0 <= i < |lines| => LexDiff(lines[i]))
  }

  function KeysOf(ls: seq<ListLine<string>>): (keys: seq<(string, string)>)
    ensures |keys| == |ls|
  {
    seq(|ls|, i requires 0 <= i < |ls| => (ls[i].path, Trim(ls[i].text)))
  }

  function CandidatesOf(ls: seq<ListLine<string>>): (cs: seq<Candidate<string, (string, nat)>>)
    ensures |cs| == |ls|
  {
    seq(|ls|, i requires 0 <= i < |ls| => Candidate(ls[i].path, ls[i].line, (ls[i].path, ls[i].hunk)))
  }

  /** The flags the greedy pairing leaves. */
  function PairedFlags<K(==)>(keys: seq<K>, others: seq<K>): (flags: seq<bool>)
    ensures |flags| == |keys| && forall i | 0 <= i < |keys| :: flags[i] == Among(keys, i, Count(others, |others|, keys[i]))
  {
    seq(|keys|, i requires 0 <= i < |keys| => Among(keys, i, Count(others, |others|, keys[i])))
  }

  function PromotableFrom(added: seq<ListLine<string>>, removed: seq<ListLine<string>>, path: string): set<nat> {
    var a, r := KeysOf(added), KeysOf(removed);
    var candidates := CandidatesOf(added);
    var gone := GoneFor(Hunks(candidates), Hunks(CandidatesOf(removed)), PairedFlags(r, a));
    LinesFor(candidates, PairedFlags(a, r), gone, |candidates|, path)
  }

  method PairAndCollect(added: seq<ListLine<string>>, removed: seq<ListLine<string>>) returns (lines: map<string, set<nat>>)
    ensures forall path :: LinesOf(lines, path) == PromotableFrom(added, removed, path)
  {
    var a, r, candidates := KeysOf(added), KeysOf(removed), CandidatesOf(added);
    var addedPaired, removedPaired := Pair(a, r);
    assert addedPaired == PairedFlags(a, r);
    assert removedPaired[..] == PairedFlags(r, a);
    var removedHunks := Hunks(CandidatesOf(removed));
    var counts := CountUnpaired(removedHunks, removedPaired[..]);
    ghost var gone := GoneFor(Hunks(candidates), removedHunks, PairedFlags(r, a));
    lines := CollectLines(candidates, addedPaired, counts, gone);
  }

  method CollectPromotableAddedItemLines(diffText: string) returns (linesByPath: map<string, set<nat>>)
    ensures
      var s := ScanLines("", Scan("", -1, 0, [], []), DiffLines(diffText));
      forall path :: LinesOf(linesByPath, path) == PromotableFrom(s.added, s.removed, path)
  {
    var added, removed := ReadDiff("", DiffLines(diffText));
    linesByPath := PairAndCollect(added, removed);
  }
}
