/** What fixing keeps: line numbers in order, and every line that is not blank. */
module ChangelogContent {
  import opened ChangelogLines
  import opened ChangelogDocument
  import opened ChangelogNormalize
  import opened ChangelogItems
  import opened ChangelogPromotion

  lemma {:induction false} BodyInOrder<R>(lines: seq<Line<R>>, from: nat)
    requires Consecutive(lines, from)
    ensures Consecutive(ParseBody(lines).leading, from)
    ensures forall j | 0 <= j < |ParseBody(lines).subsections| :: InOrder(ParseBody(lines).subsections[j].lines)
  {
    if lines != [] {
      BodyInOrder(lines[1..], from + 1);
    }
  }

  ghost predicate SectionInOrder<R>(s: ReleaseSection<R>) {
    forall j | 0 <= j < |s.body.subsections| :: InOrder(s.body.subsections[j].lines)
  }

  lemma {:induction false} DocumentInOrder<R>(lines: seq<Line<R>>, from: nat)
    requires Consecutive(lines, from)
    ensures Consecutive(ParseLines(lines).prefix, from)
    ensures forall i | 0 <= i < |ParseLines(lines).sections| :: SectionInOrder(ParseLines(lines).sections[i])
  {
    if lines != [] {
      DocumentInOrder(lines[1..], from + 1);
      BodyInOrder(ParseLines(lines[1..]).prefix, from + 1);
    }
  }

  /** A parsed document can be walked. */
  lemma ParsedIsReady<R>(style: Style<R>, lines: seq<Line<R>>, starts: set<nat>)
    requires Consecutive(lines, 1)
    ensures AllReady(style, ParseLines(lines).sections, starts)
  {
    DocumentInOrder(lines, 1);
    forall i | 0 <= i < |ParseLines(lines).sections|
      ensures SectionInOrder(ParseLines(lines).sections[i])
    {
    }
  }

  /** The lines that are not blank, without numbers. */
  function NonBlank<R(==)>(lines: seq<Line<R>>): seq<Line<R>> {
    if lines == [] then []
    else (if lines[0].isBlank then [] else [lines[0].(number := 0)]) + NonBlank(lines[1..])
  }

  lemma {:induction false} NonBlankConcat<R>(a: seq<Line<R>>, b: seq<Line<R>>)
    ensures NonBlank(a + b) == NonBlank(a) + NonBlank(b)
  {
    if a == [] {
      assert a + b == b;
    } else {
      assert (a + b)[1..] == a[1..] + b;
      NonBlankConcat(a[1..], b);
    }
  }

  lemma NonBlankConcat3<R>(a: seq<Line<R>>, b: seq<Line<R>>, c: seq<Line<R>>)
    ensures NonBlank(a + b + c) == NonBlank(a) + NonBlank(b) + NonBlank(c)
  {
    NonBlankConcat(a + b, c);
    NonBlankConcat(a, b);
  }

  lemma {:induction false} NonBlankOfBlank<R>(lines: seq<Line<R>>)
    requires AllBlank(lines)
    ensures NonBlank(lines) == []
  {
    if lines != [] {
      NonBlankOfBlank(lines[1..]);
    }
  }

  lemma {:induction false} NonBlankSynthetic<R>(lines: seq<Line<R>>)
    ensures NonBlank(Synthetic(lines)) == NonBlank(lines)
  {
    if lines != [] {
      assert Synthetic(lines)[1..] == Synthetic(lines[1..]);
      NonBlankSynthetic(lines[1..]);
    }
  }

  lemma NonBlankKept<R>(lines: seq<Line<R>>)
    ensures NonBlank(Kept(lines)) == NonBlank(lines)
  {
    var t := Synthetic(lines);
    NonBlankTrimmed(t);
    NonBlankSynthetic(lines);
  }

  lemma NonBlankTrimmed<R>(t: seq<Line<R>>)
    ensures NonBlank(TrimLines(t)) == NonBlank(t)
  {
    var before, after := TrimLinesParts(t);
    NonBlankConcat(before, TrimLines(t) + after);
    NonBlankConcat(TrimLines(t), after);
    NonBlankOfBlank(before);
    NonBlankOfBlank(after);
  }

  lemma NonBlankJoin<R>(a: seq<Line<R>>, gap: seq<Line<R>>, b: seq<Line<R>>)
    requires AllBlank(gap)
    ensures NonBlank(a + gap + b) == NonBlank(a) + NonBlank(b)
  {
    NonBlankConcat3(a, gap, b);
    NonBlankOfBlank(gap);
  }

  /** Appending loses nothing and adds nothing but a blank line. */
  lemma NonBlankAppend<R>(style: Style<R>, existing: seq<Line<R>>, source: seq<Line<R>>)
    ensures NonBlank(AppendLines(style, existing, source)) == NonBlank(existing) + NonBlank(source)
  {
    NonBlankKept(source);
    NonBlankKept(existing);
    if Kept(existing) == [] || Kept(source) == [] {
      AppendNothing(style, existing, source);
    } else {
      var gap := JoinedLines(style, existing, source);
      NonBlankJoin(Kept(existing), gap, Kept(source));
    }
  }

  /** The non-blank lines under a title, in order. */
  function UnderTitle<R(==)>(subs: seq<Subsection<R>>, title: R): seq<Line<R>> {
    if subs == [] then []
    else (if subs[0].title == title then NonBlank(subs[0].lines) else []) + UnderTitle(subs[1..], title)
  }

  lemma {:induction false} UnderTitleConcat<R>(a: seq<Subsection<R>>, b: seq<Subsection<R>>, title: R)
    ensures UnderTitle(a + b, title) == UnderTitle(a, title) + UnderTitle(b, title)
  {
    if a == [] {
      assert a + b == b;
    } else {
      assert (a + b)[1..] == a[1..] + b;
      UnderTitleConcat(a[1..], b, title);
    }
  }

  lemma UnderTitleSplit<R>(a: seq<Subsection<R>>, s: Subsection<R>, c: seq<Subsection<R>>, title: R)
    ensures
      UnderTitle(a + [s] + c, title)
      == UnderTitle(a, title) + (if s.title == title then NonBlank(s.lines) else []) + UnderTitle(c, title)
  {
    UnderTitleConcat(a + [s], c, title);
    UnderTitleConcat(a, [s], title);
    assert UnderTitle([s], title) == if s.title == title then NonBlank(s.lines) else [];
  }

  lemma {:induction false} UnderNoTitle<R>(subs: seq<Subsection<R>>, title: R)
    requires forall j | 0 <= j < |subs| :: subs[j].title != title
    ensures UnderTitle(subs, title) == []
  {
    if subs != [] {
      UnderNoTitle(subs[1..], title);
    }
  }

  /** With the title once only, its lines are all there is under it. */
  lemma UnderOneTitle<R>(subs: seq<Subsection<R>>, k: nat)
    requires k < |subs| && forall j | 0 <= j < |subs| && j != k :: subs[j].title != subs[k].title
    ensures UnderTitle(subs, subs[k].title) == NonBlank(subs[k].lines)
  {
    var title, a, c := subs[k].title, subs[..k], subs[k + 1..];
    assert subs == a + [subs[k]] + c;
    UnderTitleSplit(a, subs[k], c, title);
    forall j | 0 <= j < |a|
      ensures a[j].title != title
    {
      assert a[j] == subs[j];
    }
    UnderNoTitle(a, title);
    forall j | 0 <= j < |c|
      ensures c[j].title != title
    {
      assert c[j] == subs[k + 1 + j];
    }
    UnderNoTitle(c, title);
  }

  lemma UnderOtherTitle<R>(subs: seq<Subsection<R>>, k: nat, s: Subsection<R>, title: R)
    requires k < |subs| && s.title == subs[k].title != title
    ensures UnderTitle(subs[k := s], title) == UnderTitle(subs, title)
  {
    assert subs == subs[..k] + [subs[k]] + subs[k + 1..];
    assert subs[k := s] == subs[..k] + [s] + subs[k + 1..];
    UnderTitleSplit(subs[..k], subs[k], subs[k + 1..], title);
    UnderTitleSplit(subs[..k], s, subs[k + 1..], title);
  }

  lemma MergeKeepsLines<R>(style: Style<R>, done: seq<Subsection<R>>, sub: Subsection<R>, title: R)
    requires DistinctTitles(done)
    ensures UnderTitle(Merge(style, done, sub), title) == UnderTitle(done, title) + UnderTitle([sub], title)
    ensures DistinctTitles(Merge(style, done, sub))
  {
    var k, next := FindTitle(done, sub.title), Merge(style, done, sub);
    if sub.lines != [] && k < |done| {
      if title == sub.title {
        UnderOneTitle(done, k);
        UnderOneTitle(next, k);
        NonBlankAppend(style, done[k].lines, sub.lines);
      } else {
        UnderOtherTitle(done, k, next[k], title);
      }
    } else if sub.lines != [] {
      UnderTitleConcat(done, [sub], title);
    }
  }

  lemma {:induction false} MergeAllKeepsLines<R>(style: Style<R>, done: seq<Subsection<R>>, subs: seq<Subsection<R>>, title: R)
    requires DistinctTitles(done)
    ensures UnderTitle(MergeAll(style, done, subs), title) == UnderTitle(done, title) + UnderTitle(subs, title)
    ensures DistinctTitles(MergeAll(style, done, subs))
    decreases |subs|
  {
    if subs != [] {
      MergeKeepsLines(style, done, subs[0], title);
      MergeAllKeepsLines(style, Merge(style, done, subs[0]), subs[1..], title);
      assert subs == [subs[0]] + subs[1..];
      UnderTitleConcat([subs[0]], subs[1..], title);
    }
  }

  lemma {:induction false} OutlinedKeepsLines<R>(subs: seq<Subsection<R>>, title: R)
    ensures UnderTitle(Outlined(subs), title) == UnderTitle(subs, title)
  {
    if subs != [] {
      assert Outlined(subs)[1..] == Outlined(subs[1..]);
      OutlinedKeepsLines(subs[1..], title);
      NonBlankKept(subs[0].lines);
    }
  }

  lemma SortKeepsLines<R>(style: Style<R>, subs: seq<Subsection<R>>, title: R)
    requires DistinctTitles(subs)
    ensures UnderTitle(Sorted(style, subs), title) == UnderTitle(subs, title)
  {
    var sorted := Sorted(style, subs);
    SortKeeps(style, subs);
    SortKeepsTitles(style, subs);
    var k := FindTitle(subs, title);
    if k < |subs| {
      assert subs[k] in multiset(sorted);
      var j :| 0 <= j < |sorted| && sorted[j] == subs[k];
      UnderOneTitle(subs, k);
      UnderOneTitle(sorted, j);
    } else {
      forall j | 0 <= j < |sorted|
        ensures sorted[j].title != title
      {
        assert sorted[j] in subs;
      }
      UnderNoTitle(subs, title);
      UnderNoTitle(sorted, title);
    }
  }

  /** Normalising a section keeps the non-blank lines of every title, in order. */
  lemma NormalizingKeepsLines<R>(style: Style<R>, s: ReleaseSection<R>, title: R)
    ensures UnderTitle(Normalized(style, s).body.subsections, title) == UnderTitle(s.body.subsections, title)
    ensures NonBlank(Normalized(style, s).body.leading) == NonBlank(s.body.leading)
  {
    var outlined := Outlined(s.body.subsections);
    MergeAllKeepsLines(style, [], outlined, title);
    OutlinedKeepsLines(s.body.subsections, title);
    SortKeepsLines(style, MergeAll(style, [], outlined), title);
    NonBlankKept(s.body.leading);
  }

  ghost predicate IsPrefix<T>(a: seq<T>, b: seq<T>) {
    |a| <= |b| && b[..|a|] == a
  }

  lemma {:induction false} AddItemsExtend<R>(style: Style<R>, lines: seq<Line<R>>, items: seq<Item<R>>)
    ensures IsPrefix(NonBlank(lines), NonBlank(AddItems(style, lines, items)))
    decreases |items|
  {
    if items != [] {
      var next := AddItem(style, lines, items[0]);
      NonBlankAppend(style, lines, items[0].lines);
      AddItemsExtend(style, next, items[1..]);
      PrefixTrans(NonBlank(lines), NonBlank(next), NonBlank(AddItems(style, lines, items)));
    }
  }

  /** More lines in the last subsection of a title come after everything else the title says. */
  lemma LastExtends<R>(subs: seq<Subsection<R>>, k: nat, s: Subsection<R>)
    requires k < |subs| && s.title == subs[k].title && IsPrefix(NonBlank(subs[k].lines), NonBlank(s.lines))
    requires forall j | k < j < |subs| :: subs[j].title != s.title
    ensures IsPrefix(UnderTitle(subs, s.title), UnderTitle(subs[k := s], s.title))
  {
    var a, c := subs[..k], subs[k + 1..];
    assert subs == a + [subs[k]] + c && subs[k := s] == a + [s] + c;
    UnderTitleSplit(a, subs[k], c, s.title);
    UnderTitleSplit(a, s, c, s.title);
    forall j | 0 <= j < |c|
      ensures c[j].title != s.title
    {
      assert c[j] == subs[k + 1 + j];
    }
    UnderNoTitle(c, s.title);
  }

  /** A batch goes after everything its title has said. */
  lemma AddBatchExtends<R>(style: Style<R>, subs: seq<Subsection<R>>, b: Batch<R>, title: R)
    ensures IsPrefix(UnderTitle(subs, title), UnderTitle(AddBatch(style, subs, b), title))
  {
    var k, next := FindLast(subs, b.title), AddBatch(style, subs, b);
    if k == |subs| {
      assert next == subs + [next[k]];
      UnderTitleConcat(subs, [next[k]], title);
    } else if title == b.title {
      AddItemsExtend(style, subs[k].lines, b.items);
      LastExtends(subs, k, next[k]);
    } else {
      UnderOtherTitle(subs, k, next[k], title);
    }
  }

  lemma DepositExtends<R>(style: Style<R>, sections: seq<ReleaseSection<R>>, b: Batch<R>, title: R)
    requires FindUnreleased(style, sections) < |sections|
    ensures
      var u, next := FindUnreleased(style, sections), Deposit(style, sections, b);
      && |next| == |sections| && FindUnreleased(style, next) == u && next[u].heading == sections[u].heading
      && IsPrefix(UnderTitle(sections[u].body.subsections, title), UnderTitle(next[u].body.subsections, title))
  {
    var u := FindUnreleased(style, sections);
    AddBatchExtends(style, sections[u].body.subsections, b, title);
    FindUnreleasedUpdate(style, sections, u, WithSubsections(sections[u], AddBatch(style, sections[u].body.subsections, b)));
  }

  /** Whatever is deposited, an unreleased section first says what it said. */
  lemma {:induction false} PlaceExtends<R>(style: Style<R>, sections: seq<ReleaseSection<R>>, batches: seq<Batch<R>>, title: R)
    requires FindUnreleased(style, sections) < |sections|
    ensures
      var u, next := FindUnreleased(style, sections), Place(style, sections, batches);
      && FindUnreleased(style, next) == u < |next|
      && IsPrefix(UnderTitle(sections[u].body.subsections, title), UnderTitle(next[u].body.subsections, title))
    decreases |batches|
  {
    if batches != [] {
      DepositExtends(style, sections, batches[0], title);
      PlaceExtends(style, Deposit(style, sections, batches[0]), batches[1..], title);
      var u, next := FindUnreleased(style, sections), Place(style, sections, batches);
      PrefixTrans(
        UnderTitle(sections[u].body.subsections, title),
        UnderTitle(Deposit(style, sections, batches[0])[u].body.subsections, title),
        UnderTitle(next[u].body.subsections, title));
    }
  }

  lemma PrefixTrans<T>(a: seq<T>, b: seq<T>, c: seq<T>)
    requires IsPrefix(a, b) && IsPrefix(b, c)
    ensures IsPrefix(a, c)
  {
    assert c[..|a|] == c[..|b|][..|a|];
  }
}
