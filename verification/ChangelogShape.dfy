/** What holds of every line from parsing to writing. */
module ChangelogShape {
  import opened ChangelogLines
  import opened ChangelogDocument
  import opened ChangelogNormalize
  import opened ChangelogItems
  import opened ChangelogPromotion
  import opened ChangelogRender
  import opened ChangelogRoundTrip

  /** What a line is written as, whatever its number. */
  predicate Good<R(==)>(ok: Line<R> -> bool, l: Line<R>) {
    ok(l.(number := 0))
  }

  predicate GoodLines<R(==)>(ok: Line<R> -> bool, ls: seq<Line<R>>) {
    forall i | 0 <= i < |ls| :: Good(ok, ls[i])
  }

  predicate GoodBodyLines<R(==)>(ok: Line<R> -> bool, ls: seq<Line<R>>) {
    GoodLines(ok, ls) && AllPlain(ls)
  }

  predicate GoodSubsection<R(==)>(style: Style<R>, ok: Line<R> -> bool, s: Subsection<R>) {
    ok(HeadingLine(style, s.title)) && GoodBodyLines(ok, s.lines)
  }

  predicate GoodSubsections<R(==)>(style: Style<R>, ok: Line<R> -> bool, subs: seq<Subsection<R>>) {
    forall j | 0 <= j < |subs| :: GoodSubsection(style, ok, subs[j])
  }

  predicate GoodHeading<R(==)>(ok: Line<R> -> bool, l: Line<R>) {
    ok(l) && l.isRelease && !l.isBlank && l.number == 0
  }

  predicate GoodSection<R(==)>(style: Style<R>, ok: Line<R> -> bool, s: ReleaseSection<R>) {
    GoodHeading(ok, s.heading) && GoodBodyLines(ok, s.body.leading) && GoodSubsections(style, ok, s.body.subsections)
  }

  predicate GoodSections<R(==)>(style: Style<R>, ok: Line<R> -> bool, sections: seq<ReleaseSection<R>>) {
    forall i | 0 <= i < |sections| :: GoodSection(style, ok, sections[i])
  }

  /** Blank lines, the unreleased heading, and titles read can be written. */
  ghost predicate Writes<R>(style: Style<R>, ok: Line<R> -> bool) {
    ok(Empty(style)) && GoodHeading(ok, UnreleasedHeading(style))
  }

  /** A line as it is read. */
  predicate Readable<R(==)>(style: Style<R>, ok: Line<R> -> bool, l: Line<R>) {
    && Good(ok, l)
    && (l.isRelease ==> !l.isBlank && !l.isHeading)
    && (l.isHeading ==> ok(HeadingLine(style, l.title)))
  }

  predicate AllReadable<R(==)>(style: Style<R>, ok: Line<R> -> bool, ls: seq<Line<R>>) {
    forall i | 0 <= i < |ls| :: Readable(style, ok, ls[i])
  }

  lemma {:induction false} ParsedBodyIsGood<R>(style: Style<R>, ok: Line<R> -> bool, lines: seq<Line<R>>)
    requires AllReadable(style, ok, lines) && AllPlainPrefix(lines)
    ensures GoodBodyLines(ok, ParseBody(lines).leading)
    ensures GoodSubsections(style, ok, ParseBody(lines).subsections)
  {
    if lines != [] {
      assert Readable(style, ok, lines[0]);
      ParsedBodyIsGood(style, ok, lines[1..]);
    }
  }

  lemma {:induction false} ParsedIsGood<R>(style: Style<R>, ok: Line<R> -> bool, lines: seq<Line<R>>)
    requires AllReadable(style, ok, lines)
    ensures AllReadable(style, ok, ParseLines(lines).prefix) && AllPlainPrefix(ParseLines(lines).prefix)
    ensures GoodSections(style, ok, ParseLines(lines).sections)
  {
    if lines != [] {
      assert Readable(style, ok, lines[0]);
      ParsedIsGood(style, ok, lines[1..]);
      ParsedBodyIsGood(style, ok, ParseLines(lines[1..]).prefix);
    }
  }

  lemma {:induction false} RemainingIsGood<R>(ok: Line<R> -> bool, lines: seq<Line<R>>, starts: set<nat>, dropping: bool)
    requires GoodBodyLines(ok, lines)
    ensures GoodBodyLines(ok, Remaining(lines, starts, dropping))
  {
    if lines != [] {
      assert Good(ok, lines[0]);
      RemainingIsGood(ok, lines[1..], starts, if lines[0].isItem then lines[0].number in starts else dropping);
    }
  }

  lemma KeptIsGood<R>(ok: Line<R> -> bool, ls: seq<Line<R>>)
    requires GoodLines(ok, ls)
    ensures GoodLines(ok, Kept(ls))
    ensures AllPlain(ls) ==> AllPlain(Kept(ls))
    ensures forall i | 0 <= i < |Kept(ls)| :: ok(Kept(ls)[i])
  {
    var t := Synthetic(ls);
    var a, b := TrimLinesParts(t);
    forall i | 0 <= i < |Kept(ls)|
      ensures Good(ok, Kept(ls)[i]) && Kept(ls)[i].number == 0 && (AllPlain(ls) ==> IsPlain(Kept(ls)[i]))
    {
      assert Kept(ls)[i] == t[|a| + i] == ls[|a| + i].(number := 0);
      assert Good(ok, ls[|a| + i]);
    }
  }

  lemma AppendIsGood<R>(style: Style<R>, ok: Line<R> -> bool, existing: seq<Line<R>>, source: seq<Line<R>>)
    requires ok(Empty(style)) && GoodBodyLines(ok, existing) && GoodBodyLines(ok, source)
    ensures GoodBodyLines(ok, AppendLines(style, existing, source))
  {
    KeptIsGood(ok, existing);
    KeptIsGood(ok, source);
    if Kept(existing) == [] || Kept(source) == [] {
      AppendNothing(style, existing, source);
    } else {
      var gap := JoinedLines(style, existing, source);
      ConcatIsGood(ok, Kept(existing), gap);
      ConcatIsGood(ok, Kept(existing) + gap, Kept(source));
    }
  }

  lemma ConcatIsGood<R>(ok: Line<R> -> bool, a: seq<Line<R>>, b: seq<Line<R>>)
    requires GoodBodyLines(ok, a) && GoodBodyLines(ok, b)
    ensures GoodBodyLines(ok, a + b)
  {
  }

  predicate GoodItems<R(==)>(ok: Line<R> -> bool, items: seq<Item<R>>) {
    forall i | 0 <= i < |items| :: GoodBodyLines(ok, items[i].lines)
  }

  predicate GoodBatches<R(==)>(style: Style<R>, ok: Line<R> -> bool, batches: seq<Batch<R>>) {
    forall i | 0 <= i < |batches| :: GoodBatch(style, ok, batches[i])
  }

  lemma {:induction false} AddItemsIsGood<R>(style: Style<R>, ok: Line<R> -> bool, lines: seq<Line<R>>, items: seq<Item<R>>)
    requires ok(Empty(style)) && GoodBodyLines(ok, lines)
    requires GoodItems(ok, items)
    ensures GoodBodyLines(ok, AddItems(style, lines, items))
    decreases |items|
  {
    if items != [] {
      AppendIsGood(style, ok, lines, items[0].lines);
      AddItemsIsGood(style, ok, AddItem(style, lines, items[0]), items[1..]);
    }
  }

  predicate GoodBatch<R(==)>(style: Style<R>, ok: Line<R> -> bool, b: Batch<R>) {
    ok(HeadingLine(style, b.title)) && GoodItems(ok, b.items)
  }

  lemma DepositIsGood<R>(style: Style<R>, ok: Line<R> -> bool, sections: seq<ReleaseSection<R>>, b: Batch<R>)
    requires Writes(style, ok) && GoodSections(style, ok, sections) && GoodBatch(style, ok, b)
    ensures GoodSections(style, ok, Deposit(style, sections, b))
  {
    var all := Ensured(style, sections);
    var u := FindUnreleased(style, all);
    assert GoodSections(style, ok, all);
    var subs := all[u].body.subsections;
    var k := FindLast(subs, b.title);
    if k < |subs| {
      assert GoodSubsection(style, ok, subs[k]);
    }
    AddItemsIsGood(style, ok, if k < |subs| then subs[k].lines else [], b.items);
    assert GoodSubsections(style, ok, AddBatch(style, subs, b));
  }

  lemma {:induction false} PlaceIsGood<R>(style: Style<R>, ok: Line<R> -> bool, sections: seq<ReleaseSection<R>>, batches: seq<Batch<R>>)
    requires Writes(style, ok) && GoodSections(style, ok, sections)
    requires GoodBatches(style, ok, batches)
    ensures GoodSections(style, ok, Place(style, sections, batches))
    decreases |batches|
  {
    if batches != [] {
      DepositIsGood(style, ok, sections, batches[0]);
      PlaceIsGood(style, ok, Deposit(style, sections, batches[0]), batches[1..]);
    }
  }

  lemma {:induction false} GroupsAreGood<R>(ok: Line<R> -> bool, lines: seq<Line<R>>)
    requires GoodBodyLines(ok, lines)
    ensures GoodBodyLines(ok, Groups(lines).before)
    ensures forall i | 0 <= i < |Groups(lines).groups| :: GoodBodyLines(ok, Members(Groups(lines).groups[i]))
  {
    if lines != [] {
      assert Good(ok, lines[0]);
      GroupsAreGood(ok, lines[1..]);
    }
  }

  lemma {:induction false} ItemsAreGood<R>(ok: Line<R> -> bool, groups: seq<Group<R>>, starts: set<nat>)
    requires forall i | 0 <= i < |groups| :: GoodBodyLines(ok, Members(groups[i]))
    ensures GoodItems(ok, Promotable(Items(groups), starts))
  {
    if groups != [] {
      var first, rest := ItemOf(groups[0]), Promotable(Items(groups[1..]), starts);
      ItemsAreGood(ok, groups[1..], starts);
      KeptIsGood(ok, Members(groups[0]));
      assert Items(groups)[1..] == Items(groups[1..]);
      if first.startLine in starts {
        assert GoodItems(ok, [first] + rest);
      } else {
        assert [] + rest == rest;
      }
    }
  }

  lemma {:induction false} BatchesAreGood<R>(style: Style<R>, ok: Line<R> -> bool, subs: seq<Subsection<R>>, starts: set<nat>)
    requires GoodSubsections(style, ok, subs)
    ensures GoodBatches(style, ok, Batches(subs, starts))
  {
    if subs != [] {
      assert GoodSubsection(style, ok, subs[0]);
      GroupsAreGood(ok, subs[0].lines);
      ItemsAreGood(ok, Groups(subs[0].lines).groups, starts);
      BatchesAreGood(style, ok, subs[1..], starts);
      var first, rest := Batch(subs[0].title, Promotable(ItemsOf(subs[0].lines), starts)), Batches(subs[1..], starts);
      if first.items == [] {
        assert [] + rest == rest;
      } else {
        assert GoodBatches(style, ok, [first] + rest);
      }
    }
  }

  lemma StripIsGood<R>(style: Style<R>, ok: Line<R> -> bool, s: ReleaseSection<R>, starts: set<nat>)
    requires GoodSection(style, ok, s)
    ensures GoodSection(style, ok, StripSection(style, s, starts))
  {
    forall j | 0 <= j < |s.body.subsections|
      ensures GoodSubsection(style, ok, Stripped(s.body.subsections, starts)[j])
    {
      assert GoodSubsection(style, ok, s.body.subsections[j]);
      RemainingIsGood(ok, s.body.subsections[j].lines, starts, false);
    }
  }

  lemma {:induction false} PartsAreGood<R>(style: Style<R>, ok: Line<R> -> bool, sections: seq<ReleaseSection<R>>, starts: set<nat>)
    requires GoodSections(style, ok, sections)
    ensures GoodSections(style, ok, StripAll(style, sections, starts))
    ensures GoodBatches(style, ok, AllBatches(style, sections, starts))
  {
    if sections != [] {
      assert GoodSection(style, ok, sections[0]);
      PartsAreGood(style, ok, sections[1..], starts);
      StripIsGood(style, ok, sections[0], starts);
      BatchesAreGood(style, ok, sections[0].body.subsections, starts);
    }
  }

  /** Promotion keeps every line as good as it was. */
  lemma PromotedIsGood<R>(style: Style<R>, ok: Line<R> -> bool, sections: seq<ReleaseSection<R>>, starts: set<nat>)
    requires Writes(style, ok) && GoodSections(style, ok, sections)
    ensures GoodSections(style, ok, Promoted(style, sections, starts))
  {
    PartsAreGood(style, ok, sections, starts);
    PlaceIsGood(style, ok, StripAll(style, sections, starts), AllBatches(style, sections, starts));
  }

  lemma MergeIsGood<R>(style: Style<R>, ok: Line<R> -> bool, done: seq<Subsection<R>>, sub: Subsection<R>)
    requires ok(Empty(style)) && GoodSubsections(style, ok, done) && GoodSubsection(style, ok, sub)
    ensures GoodSubsections(style, ok, Merge(style, done, sub))
  {
    var k := FindTitle(done, sub.title);
    if k < |done| {
      assert GoodSubsection(style, ok, done[k]);
      AppendIsGood(style, ok, done[k].lines, sub.lines);
    }
  }

  lemma {:induction false} MergeAllIsGood<R>(style: Style<R>, ok: Line<R> -> bool, done: seq<Subsection<R>>, subs: seq<Subsection<R>>)
    requires ok(Empty(style)) && GoodSubsections(style, ok, done) && GoodSubsections(style, ok, subs)
    ensures GoodSubsections(style, ok, MergeAll(style, done, subs))
    decreases |subs|
  {
    if subs != [] {
      assert GoodSubsection(style, ok, subs[0]);
      MergeIsGood(style, ok, done, subs[0]);
      MergeAllIsGood(style, ok, Merge(style, done, subs[0]), subs[1..]);
    }
  }

  lemma OutlinedIsGood<R>(style: Style<R>, ok: Line<R> -> bool, subs: seq<Subsection<R>>)
    requires GoodSubsections(style, ok, subs)
    ensures GoodSubsections(style, ok, Outlined(subs))
  {
    forall j | 0 <= j < |subs|
      ensures GoodSubsection(style, ok, Outlined(subs)[j])
    {
      assert GoodSubsection(style, ok, subs[j]);
      KeptIsGood(ok, subs[j].lines);
    }
  }

  lemma NormalizedIsGood<R>(style: Style<R>, ok: Line<R> -> bool, s: ReleaseSection<R>)
    requires ok(Empty(style)) && GoodSection(style, ok, s)
    ensures GoodSection(style, ok, Normalized(style, s))
  {
    var outlined := Outlined(s.body.subsections);
    var merged := MergeAll(style, [], outlined);
    OutlinedIsGood(style, ok, s.body.subsections);
    MergeAllIsGood(style, ok, [], outlined);
    KeptIsGood(ok, s.body.leading);
    SortKeeps(style, merged);
    forall j | 0 <= j < |merged|
      ensures GoodSubsection(style, ok, Sorted(style, merged)[j])
    {
      assert Sorted(style, merged)[j] in merged;
    }
  }

  /** Every line is written as it reads. */
  predicate Written0<R(==)>(ok: Line<R> -> bool, ls: seq<Line<R>>) {
    forall i | 0 <= i < |ls| :: ok(ls[i]) && ls[i].number == 0
  }

  lemma Written0Concat<R>(ok: Line<R> -> bool, a: seq<Line<R>>, b: seq<Line<R>>)
    requires Written0(ok, a) && Written0(ok, b)
    ensures Written0(ok, a + b)
  {
  }

  lemma KeptIsWritten<R>(ok: Line<R> -> bool, ls: seq<Line<R>>)
    requires GoodLines(ok, ls)
    ensures Written0(ok, Kept(ls))
  {
    KeptIsGood(ok, ls);
    KeptKeeps(ls);
    assert forall i | 0 <= i < |Kept(ls)| :: Kept(ls)[i] in Synthetic(ls);
  }

  lemma SubsectionIsWritten<R>(style: Style<R>, ok: Line<R> -> bool, s: Subsection<R>)
    requires ok(Empty(style)) && GoodSubsection(style, ok, s)
    ensures Written0(ok, SubsectionPart(style, s))
  {
    var e, h := Empty(style), HeadingLine(style, s.title);
    KeptIsWritten(ok, s.lines);
    Written0Concat(ok, [e], Kept(s.lines));
    assert Written0(ok, [e, h]);
    Written0Concat(ok, [e, h], [e] + Kept(s.lines));
  }

  lemma {:induction false} SubsectionsAreWritten<R>(style: Style<R>, ok: Line<R> -> bool, subs: seq<Subsection<R>>)
    requires ok(Empty(style)) && GoodSubsections(style, ok, subs)
    ensures Written0(ok, SubsectionLines(style, subs))
  {
    if subs != [] {
      SubsectionIsWritten(style, ok, subs[0]);
      SubsectionsAreWritten(style, ok, subs[1..]);
      Written0Concat(ok, SubsectionPart(style, subs[0]), SubsectionLines(style, subs[1..]));
    }
  }

  lemma BodyIsWritten<R>(style: Style<R>, ok: Line<R> -> bool, b: Body<R>)
    requires ok(Empty(style)) && GoodLines(ok, b.leading) && GoodSubsections(style, ok, b.subsections)
    ensures Written0(ok, BodyLines(style, b))
  {
    KeptIsWritten(ok, b.leading);
    SubsectionsAreWritten(style, ok, b.subsections);
    Written0Concat(ok, [Empty(style)], Kept(b.leading));
    Written0Concat(ok, LeadingLines(style, b.leading), SubsectionLines(style, b.subsections));
  }

  lemma {:induction false} SectionsAreWritten<R>(style: Style<R>, ok: Line<R> -> bool, sections: seq<ReleaseSection<R>>)
    requires ok(Empty(style)) && GoodSections(style, ok, sections)
    ensures Written0(ok, SectionLines(style, sections))
  {
    if sections != [] {
      var s, rest := sections[0], SectionLines(style, sections[1..]);
      assert GoodSection(style, ok, s);
      BodyIsWritten(style, ok, s.body);
      SectionsAreWritten(style, ok, sections[1..]);
      Written0Concat(ok, [Empty(style)], rest);
      Written0Concat(ok, BodyLines(style, s.body), [Empty(style)] + rest);
      Written0Concat(ok, [s.heading], BodyLines(style, s.body) + ([Empty(style)] + rest));
    }
  }

  lemma {:induction false} DropIsWritten<R>(style: Style<R>, ok: Line<R> -> bool, ls: seq<Line<R>>)
    requires Written0(ok, ls)
    ensures Written0(ok, DropEmptyEnd(style, ls))
  {
    if ls != [] && ls[|ls| - 1] == Empty(style) {
      DropIsWritten(style, ok, ls[..|ls| - 1]);
    }
  }

  lemma OutputIsGood<R>(style: Style<R>, ok: Line<R> -> bool, d: Document<R>)
    requires ok(Empty(style)) && GoodLines(ok, d.prefix) && GoodSections(style, ok, d.sections)
    ensures Written0(ok, OutputLines(style, d))
  {
    KeptIsWritten(ok, d.prefix);
    SectionsAreWritten(style, ok, d.sections);
    Written0Concat(ok, Kept(d.prefix), [Empty(style)]);
    Written0Concat(ok, PrefixLines(style, d.prefix), SectionLines(style, d.sections));
    DropIsWritten(style, ok, PrefixLines(style, d.prefix) + SectionLines(style, d.sections));
  }
}
