/** Merging duplicate subsections, dropping empty ones, and ordering the unreleased ones. */
module ChangelogNormalize {
  import opened ChangelogLines
  import opened ChangelogDocument

  datatype Counters = Counters(merged: nat, removed: nat)

  /** Adds trimmed lines to existing ones; two list items need no blank line between them. */
  function AppendLines<R(==)>(style: Style<R>, existing: seq<Line<R>>, source: seq<Line<R>>): seq<Line<R>> {
    var added, kept := Kept(source), Kept(existing);
    if added == [] then existing
    else if kept == [] then added
    else if kept[|kept| - 1].isItem && added[0].isItem then kept + added
    else kept + [Empty(style)] + added
  }

  lemma JoinedLines<R>(style: Style<R>, existing: seq<Line<R>>, source: seq<Line<R>>) returns (gap: seq<Line<R>>)
    requires Kept(existing) != [] && Kept(source) != []
    ensures gap == [] || gap == [Empty(style)]
    ensures AppendLines(style, existing, source) == Kept(existing) + gap + Kept(source)
  {
    var added, kept := Kept(source), Kept(existing);
    gap := if kept[|kept| - 1].isItem && added[0].isItem then [] else [Empty(style)];
    assert kept + [] == kept;
  }

  lemma AppendNothing<R>(style: Style<R>, existing: seq<Line<R>>, source: seq<Line<R>>)
    requires Kept(existing) == [] || Kept(source) == []
    ensures AppendLines(style, existing, source) == if Kept(source) == [] then existing else Kept(source)
  {
  }

  function FindTitle<R(==)>(subs: seq<Subsection<R>>, title: R): (k: nat)
    ensures k <= |subs|
    ensures k < |subs| ==> subs[k].title == title
    ensures forall j | 0 <= j < k :: subs[j].title != title
  {
    if subs == [] || subs[0].title == title then 0 else 1 + FindTitle(subs[1..], title)
  }

  /** Subsections as they are written: no line numbers, no blank ends. */
  function Outlined<R(==)>(subs: seq<Subsection<R>>): (o: seq<Subsection<R>>)
    ensures |o| == |subs| && forall i | 0 <= i < |subs| :: o[i] == Subsection(subs[i].title, Kept(subs[i].lines))
  {
    seq(|subs|, i requires 0 <= i < |subs| => Subsection(subs[i].title, Kept(subs[i].lines)))
  }

  /** Takes one subsection into the merged list. */
  function Merge<R(==)>(style: Style<R>, done: seq<Subsection<R>>, sub: Subsection<R>): seq<Subsection<R>> {
    var k := FindTitle(done, sub.title);
    if sub.lines == [] then done
    else if k < |done| then done[k := Subsection(sub.title, AppendLines(style, done[k].lines, sub.lines))]
    else done + [sub]
  }

  function MergeAll<R(==)>(style: Style<R>, done: seq<Subsection<R>>, subs: seq<Subsection<R>>): seq<Subsection<R>>
    decreases |subs|
  {
    if subs == [] then done else MergeAll(style, Merge(style, done, subs[0]), subs[1..])
  }

  function CountEmpty<R(==)>(subs: seq<Subsection<R>>): nat {
    if subs == [] then 0 else (if subs[0].lines == [] then 1 else 0) + CountEmpty(subs[1..])
  }

  /** Inserts after every subsection that does not order later. */
  function Insert<R(==)>(style: Style<R>, sorted: seq<Subsection<R>>, sub: Subsection<R>): seq<Subsection<R>> {
    var n := |sorted|;
    if n > 0 && style.order(sub.title) < style.order(sorted[n - 1].title) then
      Insert(style, sorted[..n - 1], sub) + [sorted[n - 1]]
    else sorted + [sub]
  }

  /** The stable sort by title order. */
  function Sorted<R(==)>(style: Style<R>, subs: seq<Subsection<R>>): seq<Subsection<R>> {
    if subs == [] then [] else Insert(style, Sorted(style, subs[..|subs| - 1]), subs[|subs| - 1])
  }

  function Normalized<R(==)>(style: Style<R>, s: ReleaseSection<R>): ReleaseSection<R> {
    var merged := MergeAll(style, [], Outlined(s.body.subsections));
    var subs := if s.heading.title == style.unreleased then Sorted(style, merged) else merged;
    ReleaseSection(s.heading, Body(Kept(s.body.leading), subs))
  }

  /** Every subsection is dropped, merged into an earlier one, or starts a merged one. */
  function CountersOf<R(==)>(style: Style<R>, outlined: seq<Subsection<R>>): Counters {
    MergeShrinks(style, [], outlined);
    Counters(|outlined| - CountEmpty(outlined) - |MergeAll(style, [], outlined)|, CountEmpty(outlined))
  }

  lemma {:induction false} MergeShrinks<R>(style: Style<R>, done: seq<Subsection<R>>, subs: seq<Subsection<R>>)
    ensures |MergeAll(style, done, subs)| + CountEmpty(subs) <= |done| + |subs|
    decreases |subs|
  {
    if subs != [] {
      MergeShrinks(style, Merge(style, done, subs[0]), subs[1..]);
    }
  }

  method MergeSubsection<R(==)>(style: Style<R>, done: seq<Subsection<R>>, sub: Subsection<R>)
    returns (next: seq<Subsection<R>>, merged: nat, removed: nat)
    ensures next == Merge(style, done, Subsection(sub.title, Kept(sub.lines)))
    ensures removed == (if Kept(sub.lines) == [] then 1 else 0) && merged + removed + |next| == |done| + 1
  {
    var trimmed := TrimBlankLines(Synthetic(sub.lines));
    if trimmed == [] {
      return done, 0, 1;
    }
    var k := FindTitle(done, sub.title);
    if k < |done| {
      return done[k := Subsection(sub.title, AppendLines(style, done[k].lines, trimmed))], 1, 0;
    }
    return done + [Subsection(sub.title, trimmed)], 0, 0;
  }

  lemma NextOutlined<R>(style: Style<R>, done: seq<Subsection<R>>, outlined: seq<Subsection<R>>, i: nat)
    requires i < |outlined|
    ensures MergeAll(style, done, outlined[i..]) == MergeAll(style, Merge(style, done, outlined[i]), outlined[i + 1..])
    ensures CountEmpty(outlined[i..]) == (if outlined[i].lines == [] then 1 else 0) + CountEmpty(outlined[i + 1..])
  {
    assert outlined[i..][1..] == outlined[i + 1..];
  }

  /** Walks the subsections once, keeping the merged list and the two counters. */
  method MergeSubsections<R(==)>(style: Style<R>, subs: seq<Subsection<R>>) returns (done: seq<Subsection<R>>, c: Counters)
    ensures done == MergeAll(style, [], Outlined(subs)) && c == CountersOf(style, Outlined(subs))
  {
    ghost var outlined := Outlined(subs);
    ghost var want, empties := MergeAll(style, [], outlined), CountEmpty(outlined);
    done := [];
    var merged: nat, removed: nat := 0, 0;
    assert outlined[0..] == outlined;
    for i := 0 to |subs|
      invariant MergeAll(style, done, outlined[i..]) == want
      invariant removed + CountEmpty(outlined[i..]) == empties
      invariant merged + removed + |done| == i
    {
      NextOutlined(style, done, outlined, i);
      var again, empty;
      done, again, empty := MergeSubsection(style, done, subs[i]);
      merged, removed := merged + again, removed + empty;
    }
    c := Counters(merged, removed);
  }

  method NormalizeSection<R(==)>(style: Style<R>, s: ReleaseSection<R>) returns (r: ReleaseSection<R>, c: Counters)
    ensures r == Normalized(style, s) && c == CountersOf(style, Outlined(s.body.subsections))
  {
    var subs;
    subs, c := MergeSubsections(style, s.body.subsections);
    if s.heading.title == style.unreleased {
      subs := Sorted(style, subs);
    }
    var leading := TrimBlankLines(Synthetic(s.body.leading));
    r := ReleaseSection(s.heading, Body(leading, subs));
  }

  /** A line that a section body or a subsection can hold. */
  predicate IsPlain<R(==)>(l: Line<R>) {
    !l.isRelease && !l.isHeading
  }

  predicate AllPlain<R(==)>(ls: seq<Line<R>>) {
    forall i | 0 <= i < |ls| :: IsPlain(ls[i])
  }

  /** Trimmed, without numbers. */
  predicate Clean<R(==)>(ls: seq<Line<R>>) {
    AllPlain(ls) && TrimmedLines(ls) && Synthetic(ls) == ls
  }

  ghost predicate DistinctTitles<R>(subs: seq<Subsection<R>>) {
    forall i, j | 0 <= i < j < |subs| :: subs[i].title != subs[j].title
  }

  predicate CleanSubsection<R(==)>(s: Subsection<R>) {
    s.lines != [] && Clean(s.lines)
  }

  ghost predicate CleanSubsections<R>(subs: seq<Subsection<R>>) {
    DistinctTitles(subs) && forall i | 0 <= i < |subs| :: CleanSubsection(subs[i])
  }

  predicate PlainBody<R(==)>(b: Body<R>) {
    AllPlain(b.leading) && forall i | 0 <= i < |b.subsections| :: AllPlain(b.subsections[i].lines)
  }

  lemma KeptIsClean<R>(ls: seq<Line<R>>)
    requires AllPlain(ls)
    ensures Clean(Kept(ls)) && Kept(Kept(ls)) == Kept(ls)
  {
    var t := Kept(ls);
    KeptKeeps(ls);
    assert forall i | 0 <= i < |t| :: t[i] in Synthetic(ls);
    assert Synthetic(t) == t;
    TrimLinesKeeps(t);
  }

  lemma CleanKept<R>(ls: seq<Line<R>>)
    requires Clean(ls)
    ensures Kept(ls) == ls
  {
    TrimLinesKeeps(ls);
  }

  lemma AppendIsClean<R>(style: Style<R>, existing: seq<Line<R>>, source: seq<Line<R>>)
    requires existing != [] && Clean(existing) && Clean(source)
    ensures var r := AppendLines(style, existing, source); r != [] && Clean(r)
  {
    CleanKept(source);
    CleanKept(existing);
  }

  lemma MergeIsClean<R>(style: Style<R>, done: seq<Subsection<R>>, sub: Subsection<R>)
    requires CleanSubsections(done) && Clean(sub.lines)
    ensures CleanSubsections(Merge(style, done, sub))
  {
    var k := FindTitle(done, sub.title);
    if k < |done| {
      assert CleanSubsection(done[k]);
      AppendIsClean(style, done[k].lines, sub.lines);
    }
  }

  lemma {:induction false} MergeAllIsClean<R>(style: Style<R>, done: seq<Subsection<R>>, subs: seq<Subsection<R>>)
    requires CleanSubsections(done) && forall i | 0 <= i < |subs| :: Clean(subs[i].lines)
    ensures CleanSubsections(MergeAll(style, done, subs))
    decreases |subs|
  {
    if subs != [] {
      MergeIsClean(style, done, subs[0]);
      MergeAllIsClean(style, Merge(style, done, subs[0]), subs[1..]);
    }
  }

  lemma {:induction false} InsertKeeps<R>(style: Style<R>, sorted: seq<Subsection<R>>, sub: Subsection<R>)
    ensures |Insert(style, sorted, sub)| == |sorted| + 1
    ensures multiset(Insert(style, sorted, sub)) == multiset(sorted) + multiset{sub}
    ensures forall i | 0 <= i <= |sorted| :: Insert(style, sorted, sub)[i] in sorted || Insert(style, sorted, sub)[i] == sub
    decreases |sorted|
  {
    var n := |sorted|;
    if n > 0 && style.order(sub.title) < style.order(sorted[n - 1].title) {
      InsertKeeps(style, sorted[..n - 1], sub);
      assert sorted == sorted[..n - 1] + [sorted[n - 1]];
    }
  }

  /** Sorting permutes. */
  lemma {:induction false} SortKeeps<R>(style: Style<R>, subs: seq<Subsection<R>>)
    ensures |Sorted(style, subs)| == |subs|
    ensures multiset(Sorted(style, subs)) == multiset(subs)
    ensures forall i | 0 <= i < |subs| :: Sorted(style, subs)[i] in subs
  {
    if subs != [] {
      var init, last := subs[..|subs| - 1], subs[|subs| - 1];
      SortKeeps(style, init);
      assert subs == init + [last];
      InsertKeeps(style, Sorted(style, init), last);
    }
  }

  lemma {:induction false} InsertKeepsTitles<R>(style: Style<R>, sorted: seq<Subsection<R>>, sub: Subsection<R>)
    requires DistinctTitles(sorted) && forall i | 0 <= i < |sorted| :: sorted[i].title != sub.title
    ensures DistinctTitles(Insert(style, sorted, sub))
    decreases |sorted|
  {
    var n := |sorted|;
    if n > 0 && style.order(sub.title) < style.order(sorted[n - 1].title) {
      var init, last := sorted[..n - 1], sorted[n - 1];
      InsertKeepsTitles(style, init, sub);
      InsertKeeps(style, init, sub);
      forall i | 0 <= i < n
        ensures Insert(style, init, sub)[i].title != last.title
      {
        assert Insert(style, init, sub)[i] in init || Insert(style, init, sub)[i] == sub;
      }
    }
  }

  lemma {:induction false} SortKeepsTitles<R>(style: Style<R>, subs: seq<Subsection<R>>)
    requires DistinctTitles(subs)
    ensures DistinctTitles(Sorted(style, subs))
  {
    if subs != [] {
      var init, last := subs[..|subs| - 1], subs[|subs| - 1];
      SortKeepsTitles(style, init);
      SortKeeps(style, init);
      assert forall i | 0 <= i < |init| :: Sorted(style, init)[i] in init;
      InsertKeepsTitles(style, Sorted(style, init), last);
    }
  }

  ghost predicate Ordered<R>(style: Style<R>, subs: seq<Subsection<R>>) {
    forall i, j | 0 <= i < j < |subs| :: style.order(subs[i].title) <= style.order(subs[j].title)
  }

  lemma {:induction false} InsertIsOrdered<R>(style: Style<R>, sorted: seq<Subsection<R>>, sub: Subsection<R>)
    requires Ordered(style, sorted)
    ensures Ordered(style, Insert(style, sorted, sub))
    decreases |sorted|
  {
    var n := |sorted|;
    if n > 0 && style.order(sub.title) < style.order(sorted[n - 1].title) {
      var init := sorted[..n - 1];
      InsertIsOrdered(style, init, sub);
      InsertKeeps(style, init, sub);
      forall i | 0 <= i < n
        ensures style.order(Insert(style, init, sub)[i].title) <= style.order(sorted[n - 1].title)
      {
        assert Insert(style, init, sub)[i] in init || Insert(style, init, sub)[i] == sub;
      }
    }
  }

  lemma {:induction false} SortIsOrdered<R>(style: Style<R>, subs: seq<Subsection<R>>)
    ensures Ordered(style, Sorted(style, subs))
  {
    if subs != [] {
      SortIsOrdered(style, subs[..|subs| - 1]);
      InsertIsOrdered(style, Sorted(style, subs[..|subs| - 1]), subs[|subs| - 1]);
    }
  }

  lemma {:induction false} SortStays<R>(style: Style<R>, subs: seq<Subsection<R>>)
    requires Ordered(style, subs)
    ensures Sorted(style, subs) == subs
  {
    if subs != [] {
      SortStays(style, subs[..|subs| - 1]);
      assert subs == subs[..|subs| - 1] + [subs[|subs| - 1]];
    }
  }

  /** What normalising makes of a section: distinct titles, clean non-empty subsections, ordered when unreleased. */
  ghost predicate Normal<R>(style: Style<R>, s: ReleaseSection<R>) {
    && Clean(s.body.leading)
    && CleanSubsections(s.body.subsections)
    && (s.heading.title == style.unreleased ==> Ordered(style, s.body.subsections))
  }

  lemma NormalizedIsNormal<R>(style: Style<R>, s: ReleaseSection<R>)
    requires PlainBody(s.body)
    ensures Normal(style, Normalized(style, s))
  {
    var outlined := Outlined(s.body.subsections);
    var merged := MergeAll(style, [], outlined);
    KeptIsClean(s.body.leading);
    forall i | 0 <= i < |outlined|
      ensures Clean(outlined[i].lines)
    {
      KeptIsClean(s.body.subsections[i].lines);
    }
    MergeAllIsClean(style, [], outlined);
    if s.heading.title == style.unreleased {
      SortKeeps(style, merged);
      SortKeepsTitles(style, merged);
      SortIsOrdered(style, merged);
      assert forall i | 0 <= i < |merged| :: Sorted(style, merged)[i] in merged;
    }
  }

  lemma {:induction false} MergeStays<R>(style: Style<R>, done: seq<Subsection<R>>, subs: seq<Subsection<R>>)
    requires DistinctTitles(done + subs) && forall i | 0 <= i < |subs| :: subs[i].lines != []
    ensures MergeAll(style, done, subs) == done + subs && CountEmpty(subs) == 0
    decreases |subs|
  {
    if subs != [] {
      assert done + [subs[0]] + subs[1..] == done + subs;
      assert forall j | 0 <= j < |done| :: done[j] == (done + subs)[j];
      assert subs[0] == (done + subs)[|done|];
      assert Merge(style, done, subs[0]) == done + [subs[0]];
      MergeStays(style, done + [subs[0]], subs[1..]);
    }
  }

  /** The same section but for line numbers and blank ends. */
  ghost predicate SimilarSection<R>(s: ReleaseSection<R>, r: ReleaseSection<R>) {
    s.heading == r.heading && Kept(s.body.leading) == r.body.leading && Outlined(s.body.subsections) == r.body.subsections
  }

  /** A section similar to a normal one normalises to it, with nothing to count. */
  lemma NormalStays<R>(style: Style<R>, s: ReleaseSection<R>, r: ReleaseSection<R>)
    requires Normal(style, r) && SimilarSection(s, r)
    ensures Normalized(style, s) == r && CountersOf(style, Outlined(s.body.subsections)) == Counters(0, 0)
  {
    var subs := r.body.subsections;
    assert forall i | 0 <= i < |subs| :: CleanSubsection(subs[i]);
    assert [] + subs == subs;
    MergeStays(style, [], subs);
    if s.heading.title == style.unreleased {
      SortStays(style, subs);
    }
  }
}
