/** Fixing a whole changelog: parse, promote, normalise, write. */
module ChangelogFix {
  import opened ChangelogLines
  import opened ChangelogDocument
  import opened ChangelogNormalize
  import opened ChangelogItems
  import opened ChangelogPromotion
  import opened ChangelogRender
  import opened ChangelogRoundTrip
  import opened ChangelogContent
  import opened ChangelogDelivery
  import opened ChangelogShape

  function NormalizedAll<R(==)>(style: Style<R>, sections: seq<ReleaseSection<R>>): (t: seq<ReleaseSection<R>>)
    ensures |t| == |sections| && forall i | 0 <= i < |sections| :: t[i] == Normalized(style, sections[i])
  {
    if sections == [] then [] else [Normalized(style, sections[0])] + NormalizedAll(style, sections[1..])
  }

  function Totals<R(==)>(style: Style<R>, sections: seq<ReleaseSection<R>>): Counters {
    if sections == [] then Counters(0, 0)
    else
      var c, rest := CountersOf(style, Outlined(sections[0].body.subsections)), Totals(style, sections[1..]);
      Counters(c.merged + rest.merged, c.removed + rest.removed)
  }

  datatype Fixed<R> = Fixed(document: Document<R>, promoted: nat, counters: Counters)

  function FixLines<R(==)>(style: Style<R>, lines: seq<Line<R>>, starts: set<nat>): Fixed<R> {
    var d := ParseLines(lines);
    var sections := Promoted(style, d.sections, starts);
    Fixed(Document(d.prefix, NormalizedAll(style, sections)), CountItems(AllBatches(style, d.sections, starts)), Totals(style, sections))
  }

  predicate Unchanged<R>(f: Fixed<R>) {
    f.promoted == 0 && f.counters == Counters(0, 0)
  }

  method NormalizeNext<R(==)>(style: Style<R>, sections: seq<ReleaseSection<R>>, i: nat, done: seq<ReleaseSection<R>>, merged: nat, removed: nat)
    returns (t: seq<ReleaseSection<R>>, m: nat, r: nat)
    requires i < |sections|
    ensures t + NormalizedAll(style, sections[i + 1..]) == done + NormalizedAll(style, sections[i..])
    ensures Plus(m, r, Totals(style, sections[i + 1..])) == Plus(merged, removed, Totals(style, sections[i..]))
  {
    NextNormalized(style, done, merged, removed, sections, i);
    var section, counters := NormalizeSection(style, sections[i]);
    t := done + [section];
    m, r := merged + counters.merged, removed + counters.removed;
  }

  method NormalizeSections<R(==)>(style: Style<R>, sections: seq<ReleaseSection<R>>) returns (t: seq<ReleaseSection<R>>, c: Counters)
    ensures t == NormalizedAll(style, sections) && c == Totals(style, sections)
  {
    t := [];
    var merged: nat, removed: nat := 0, 0;
    ghost var all, want := NormalizedAll(style, sections), Totals(style, sections);
    assert sections[0..] == sections;
    for i := 0 to |sections|
      invariant t + NormalizedAll(style, sections[i..]) == all
      invariant Plus(merged, removed, Totals(style, sections[i..])) == want
    {
      t, merged, removed := NormalizeNext(style, sections, i, t, merged, removed);
    }
    assert sections[|sections|..] == [];
    c := Counters(merged, removed);
  }

  function Plus(merged: nat, removed: nat, c: Counters): Counters {
    Counters(merged + c.merged, removed + c.removed)
  }

  lemma NextNormalized<R>(style: Style<R>, t: seq<ReleaseSection<R>>, merged: nat, removed: nat, sections: seq<ReleaseSection<R>>, i: nat)
    requires i < |sections|
    ensures t + NormalizedAll(style, sections[i..]) == t + [Normalized(style, sections[i])] + NormalizedAll(style, sections[i + 1..])
    ensures
      var c := CountersOf(style, Outlined(sections[i].body.subsections));
      Plus(merged, removed, Totals(style, sections[i..]))
      == Plus(merged + c.merged, removed + c.removed, Totals(style, sections[i + 1..]))
  {
    assert sections[i..][1..] == sections[i + 1..];
    Regroup(t, [Normalized(style, sections[i])], NormalizedAll(style, sections[i + 1..]));
  }

  method FixDocument<R(==)>(style: Style<R>, lines: seq<Line<R>>, starts: set<nat>) returns (f: Fixed<R>)
    requires Consecutive(lines, 1)
    ensures f == FixLines(style, lines, starts)
  {
    var document := ParseDocument(lines);
    ParsedIsReady(style, lines, starts);
    var promotion := new Promotion(style, document.sections);
    promotion.Run(starts);
    var sections, counters := NormalizeSections(style, promotion.sections);
    f := Fixed(Document(document.prefix, sections), promotion.promoted, counters);
  }

  lemma {:induction false} NothingPromotable<R>(items: seq<Item<R>>)
    ensures Promotable(items, {}) == []
  {
    if items != [] {
      NothingPromotable(items[1..]);
    }
  }

  /** Without promotable lines the sections stay as they are. */
  lemma {:induction false} NothingPromoted<R>(style: Style<R>, sections: seq<ReleaseSection<R>>, starts: set<nat>)
    requires CountItems(AllBatches(style, sections, starts)) == 0
    ensures AllBatches(style, sections, starts) == [] && StripAll(style, sections, starts) == sections
  {
    if sections != [] {
      var own, rest := SectionBatches(style, sections[0], starts), AllBatches(style, sections[1..], starts);
      CountConcat(own, rest);
      NothingPromoted(style, sections[1..], starts);
      if sections[0].heading.title != style.unreleased {
        NothingTaken(sections[0].body.subsections, starts);
      }
    }
  }

  lemma {:induction false} NothingTaken<R>(subs: seq<Subsection<R>>, starts: set<nat>)
    requires CountItems(Batches(subs, starts)) == 0
    ensures Batches(subs, starts) == [] && Stripped(subs, starts) == subs
  {
    if subs != [] {
      FirstCount(subs, starts);
      NothingTaken(subs[1..], starts);
      NothingLeaves(subs[0].lines, starts);
      var first, rest := subs[0], subs[1..];
      assert Strip(first, starts) == first;
      assert Stripped(subs, starts) == [first] + Stripped(rest, starts);
      assert subs == [first] + rest;
    }
  }

  lemma FirstCount<R>(subs: seq<Subsection<R>>, starts: set<nat>)
    requires subs != []
    ensures
      var items, rest := Promotable(ItemsOf(subs[0].lines), starts), Batches(subs[1..], starts);
      && CountItems(Batches(subs, starts)) == |items| + CountItems(rest)
      && (items == [] ==> Batches(subs, starts) == rest)
  {
    var items, rest := Promotable(ItemsOf(subs[0].lines), starts), Batches(subs[1..], starts);
    if items == [] {
      assert [] + rest == rest;
    } else {
      var first := Batch(subs[0].title, items);
      assert ([first] + rest)[1..] == rest;
    }
  }

  lemma {:induction false} NoStarts<R>(style: Style<R>, sections: seq<ReleaseSection<R>>)
    ensures AllBatches(style, sections, {}) == []
  {
    if sections != [] {
      NoStarts(style, sections[1..]);
      var subs := sections[0].body.subsections;
      forall j | 0 <= j < |subs|
        ensures Promotable(ItemsOf(subs[j].lines), {}) == []
      {
        NothingPromotable(ItemsOf(subs[j].lines));
      }
      NoBatches(subs, {});
    }
  }

  /** A run that changed nothing changes nothing when it is repeated with no promotable lines. */
  lemma UnchangedAgain<R>(style: Style<R>, lines: seq<Line<R>>, starts: set<nat>)
    requires Unchanged(FixLines(style, lines, starts))
    ensures Unchanged(FixLines(style, lines, {}))
  {
    var sections := ParseLines(lines).sections;
    NothingPromoted(style, sections, starts);
    NoStarts(style, sections);
    NothingPromoted(style, sections, {});
  }

  lemma {:induction false} NothingToCount<R>(style: Style<R>, ss: seq<ReleaseSection<R>>, rs: seq<ReleaseSection<R>>)
    requires SimilarSections(ss, rs) && forall i | 0 <= i < |rs| :: Normal(style, rs[i])
    ensures Totals(style, ss) == Counters(0, 0)
  {
    if ss != [] {
      assert SimilarSection(ss[0], rs[0]);
      NormalStays(style, ss[0], rs[0]);
      NothingToCount(style, ss[1..], rs[1..]);
    }
  }

  lemma FixedIsNormal<R>(style: Style<R>, ok: Line<R> -> bool, sections: seq<ReleaseSection<R>>)
    requires Writes(style, ok) && GoodSections(style, ok, sections)
    ensures GoodSections(style, ok, NormalizedAll(style, sections))
    ensures forall i | 0 <= i < |sections| :: Normal(style, NormalizedAll(style, sections)[i]) && Writable(NormalizedAll(style, sections)[i])
  {
    forall i | 0 <= i < |sections|
      ensures GoodSection(style, ok, Normalized(style, sections[i]))
      ensures Normal(style, Normalized(style, sections[i])) && Writable(Normalized(style, sections[i]))
    {
      assert GoodSection(style, ok, sections[i]);
      ChangelogShape.NormalizedIsGood(style, ok, sections[i]);
      assert forall j | 0 <= j < |sections[i].body.subsections| :: GoodSubsection(style, ok, sections[i].body.subsections[j]);
      NormalizedIsNormal(style, sections[i]);
      assert forall j | 0 <= j < |Normalized(style, sections[i]).body.subsections| :: CleanSubsection(Normalized(style, sections[i]).body.subsections[j]);
    }
  }

  /** A fixed document can be written and read back. */
  lemma FixedCanBeWritten<R>(style: Style<R>, ok: Line<R> -> bool, lines: seq<Line<R>>, starts: set<nat>)
    requires Writes(style, ok) && AllReadable(style, ok, lines)
    ensures
      var d := FixLines(style, lines, starts).document;
      && AllPlainPrefix(d.prefix) && GoodLines(ok, d.prefix) && GoodSections(style, ok, d.sections)
      && forall i | 0 <= i < |d.sections| :: Normal(style, d.sections[i]) && Writable(d.sections[i])
  {
    var d := ParseLines(lines);
    ParsedIsGood(style, ok, lines);
    PromotedIsGood(style, ok, d.sections, starts);
    FixedIsNormal(style, ok, Promoted(style, d.sections, starts));
    forall i | 0 <= i < |d.prefix|
      ensures Good(ok, d.prefix[i])
    {
      assert Readable(style, ok, d.prefix[i]);
    }
  }

  lemma ChangedHasSections<R>(style: Style<R>, lines: seq<Line<R>>, starts: set<nat>)
    requires !Unchanged(FixLines(style, lines, starts))
    ensures FixLines(style, lines, starts).document.sections != []
  {
    var d := ParseLines(lines);
    PlaceSize(style, StripAll(style, d.sections, starts), AllBatches(style, d.sections, starts));
  }

  lemma NormalIsUnchanged<R>(style: Style<R>, again: seq<Line<R>>, fixed: seq<ReleaseSection<R>>)
    requires SimilarSections(ParseLines(again).sections, fixed) && forall i | 0 <= i < |fixed| :: Normal(style, fixed[i])
    ensures Unchanged(FixLines(style, again, {}))
  {
    var sections := ParseLines(again).sections;
    NoStarts(style, sections);
    NothingPromoted(style, sections, {});
    NothingToCount(style, sections, fixed);
  }

  /** What a run writes, a run without promotable lines leaves alone. */
  lemma WrittenStays<R>(style: Style<R>, ok: Line<R> -> bool, lines: seq<Line<R>>, starts: set<nat>, again: seq<Line<R>>)
    requires Writes(style, ok) && AllReadable(style, ok, lines)
    requires !Unchanged(FixLines(style, lines, starts))
    requires Synthetic(again) == OutputLines(style, FixLines(style, lines, starts).document)
    ensures Unchanged(FixLines(style, again, {}))
  {
    var d := FixLines(style, lines, starts).document;
    FixedCanBeWritten(style, ok, lines, starts);
    ChangedHasSections(style, lines, starts);
    DocumentReadsBack(style, d, again);
    NormalIsUnchanged(style, again, d.sections);
  }

  lemma FixedSections<R>(style: Style<R>, lines: seq<Line<R>>, starts: set<nat>)
    ensures
      var sections, fixed := Promoted(style, ParseLines(lines).sections, starts), FixLines(style, lines, starts).document.sections;
      && |fixed| == |sections| && FindUnreleased(style, fixed) == FindUnreleased(style, sections)
      && forall i | 0 <= i < |fixed| :: fixed[i] == Normalized(style, sections[i])
  {
    var sections := Promoted(style, ParseLines(lines).sections, starts);
    FindUnreleasedSame(style, NormalizedAll(style, sections), sections);
  }

  /** Every promotable item of a released section is, in the fixed document, an item of the unreleased one under its own title. */
  lemma PromotedItemArrives<R>(style: Style<R>, lines: seq<Line<R>>, starts: set<nat>, o: nat, j: nat, i: nat)
    requires SaneSections(ParseLines(lines).sections)
    requires o < |ParseLines(lines).sections| && ParseLines(lines).sections[o].heading.title != style.unreleased
    requires j < |ParseLines(lines).sections[o].body.subsections|
    requires i < |Promotable(ItemsOf(ParseLines(lines).sections[o].body.subsections[j].lines), starts)|
    ensures
      var sub, fixed := ParseLines(lines).sections[o].body.subsections[j], FixLines(style, lines, starts).document.sections;
      var u := FindUnreleased(style, fixed);
      && u < |fixed|
      && Found(fixed[u].body.subsections, sub.title, Promotable(ItemsOf(sub.lines), starts)[i].lines)
  {
    var d := ParseLines(lines);
    var sub, sections := d.sections[o].body.subsections[j], Promoted(style, d.sections, starts);
    var text := Promotable(ItemsOf(sub.lines), starts)[i].lines;
    PromotedIsDelivered(style, d.sections, starts, o, j, i);
    AllBatchesAreProper(style, d.sections, starts);
    StripIsSane(style, d.sections, starts);
    PlaceKeeps(style, StripAll(style, d.sections, starts), AllBatches(style, d.sections, starts), sub.title, text);
    FixedSections(style, lines, starts);
    NormalizingFinds(style, sections[FindUnreleased(style, sections)], sub.title, text);
  }

  /** Sections that are the same but for line numbers and blank ends have the same items. */
  lemma SimilarFinds<R>(style: Style<R>, ss: seq<ReleaseSection<R>>, rs: seq<ReleaseSection<R>>, title: R, x: seq<Line<R>>)
    requires SimilarSections(ss, rs) && SaneSections(ss)
    requires FindUnreleased(style, rs) < |rs| && Found(rs[FindUnreleased(style, rs)].body.subsections, title, x)
    ensures FindUnreleased(style, ss) == FindUnreleased(style, rs)
    ensures Found(ss[FindUnreleased(style, rs)].body.subsections, title, x)
  {
    var u := FindUnreleased(style, rs);
    FindUnreleasedSame(style, ss, rs);
    var subs, outlined := ss[u].body.subsections, rs[u].body.subsections;
    assert SimilarSection(ss[u], rs[u]) && outlined == Outlined(subs);
    var k := FindTitle(outlined, title);
    FindTitleIs(subs, title, k);
    TextsKept(subs[k].lines);
  }

  lemma {:induction false} ItemsAreCounted<R>(subs: seq<Subsection<R>>, starts: set<nat>, j: nat)
    requires j < |subs|
    ensures CountItems(Batches(subs, starts)) >= |Promotable(ItemsOf(subs[j].lines), starts)|
  {
    FirstCount(subs, starts);
    if j > 0 {
      ItemsAreCounted(subs[1..], starts, j - 1);
    }
  }

  lemma {:induction false} SectionIsCounted<R>(style: Style<R>, sections: seq<ReleaseSection<R>>, starts: set<nat>, o: nat)
    requires o < |sections|
    ensures CountItems(AllBatches(style, sections, starts)) >= CountItems(SectionBatches(style, sections[o], starts))
  {
    CountConcat(SectionBatches(style, sections[0], starts), AllBatches(style, sections[1..], starts));
    if o > 0 {
      SectionIsCounted(style, sections[1..], starts, o - 1);
    }
  }

  /** An item to promote is a change. */
  lemma PromotableChanges<R>(style: Style<R>, lines: seq<Line<R>>, starts: set<nat>, o: nat, j: nat)
    requires o < |ParseLines(lines).sections| && ParseLines(lines).sections[o].heading.title != style.unreleased
    requires j < |ParseLines(lines).sections[o].body.subsections|
    requires Promotable(ItemsOf(ParseLines(lines).sections[o].body.subsections[j].lines), starts) != []
    ensures !Unchanged(FixLines(style, lines, starts))
  {
    var sections := ParseLines(lines).sections;
    ItemsAreCounted(sections[o].body.subsections, starts, j);
    SectionIsCounted(style, sections, starts, o);
  }

  /** Reading back what a run wrote, every promoted item is an item of the unreleased section under its own title. */
  lemma PromotedItemIsWritten<R>(style: Style<R>, ok: Line<R> -> bool, lines: seq<Line<R>>, starts: set<nat>, again: seq<Line<R>>, o: nat, j: nat, i: nat)
    requires Writes(style, ok) && AllReadable(style, ok, lines)
    requires SaneSections(ParseLines(lines).sections) && SaneSections(ParseLines(again).sections)
    requires !Unchanged(FixLines(style, lines, starts))
    requires Synthetic(again) == OutputLines(style, FixLines(style, lines, starts).document)
    requires o < |ParseLines(lines).sections| && ParseLines(lines).sections[o].heading.title != style.unreleased
    requires j < |ParseLines(lines).sections[o].body.subsections|
    requires i < |Promotable(ItemsOf(ParseLines(lines).sections[o].body.subsections[j].lines), starts)|
    ensures
      var sub, read := ParseLines(lines).sections[o].body.subsections[j], ParseLines(again).sections;
      var u := FindUnreleased(style, read);
      && u < |read|
      && Found(read[u].body.subsections, sub.title, Promotable(ItemsOf(sub.lines), starts)[i].lines)
  {
    var d, sub := FixLines(style, lines, starts).document, ParseLines(lines).sections[o].body.subsections[j];
    FixedCanBeWritten(style, ok, lines, starts);
    ChangedHasSections(style, lines, starts);
    DocumentReadsBack(style, d, again);
    PromotedItemArrives(style, lines, starts, o, j, i);
    SimilarFinds(style, ParseLines(again).sections, d.sections, sub.title, Promotable(ItemsOf(sub.lines), starts)[i].lines);
  }

  lemma ReleasedIsPlaced<R>(style: Style<R>, sections: seq<ReleaseSection<R>>, starts: set<nat>, o: nat)
    requires o < |sections| && sections[o].heading.title != style.unreleased
    ensures
      var at := o + Shift(style, sections, AllBatches(style, sections, starts));
      at < |Promoted(style, sections, starts)| && Promoted(style, sections, starts)[at] == StripSection(style, sections[o], starts)
  {
    var base, batches := StripAll(style, sections, starts), AllBatches(style, sections, starts);
    StripKeepsPlaces(style, sections, starts, batches, o);
    PlaceReleased(style, base, batches, o, base[o]);
  }

  lemma StripKeepsPlaces<R>(style: Style<R>, sections: seq<ReleaseSection<R>>, starts: set<nat>, batches: seq<Batch<R>>, o: nat)
    requires o < |sections|
    ensures
      var base := StripAll(style, sections, starts);
      && |base| == |sections| && base[o] == StripSection(style, sections[o], starts)
      && Shift(style, base, batches) == Shift(style, sections, batches)
  {
    StripAllSections(style, sections, starts);
    FindUnreleasedSame(style, StripAll(style, sections, starts), sections);
  }

  lemma FixedIsNormalized<R>(style: Style<R>, lines: seq<Line<R>>, starts: set<nat>, at: nat)
    requires at < |Promoted(style, ParseLines(lines).sections, starts)|
    ensures at < |FixLines(style, lines, starts).document.sections|
    ensures
      FixLines(style, lines, starts).document.sections[at]
      == Normalized(style, Promoted(style, ParseLines(lines).sections, starts)[at])
  {
    FixedSections(style, lines, starts);
  }

  lemma StrippedKeepsLines<R>(style: Style<R>, s: ReleaseSection<R>, starts: set<nat>, title: R)
    requires s.heading.title != style.unreleased
    ensures
      var r := Normalized(style, StripSection(style, s, starts));
      && r.heading == s.heading && NonBlank(r.body.leading) == NonBlank(s.body.leading)
      && UnderTitle(r.body.subsections, title) == UnderTitle(Stripped(s.body.subsections, starts), title)
  {
    NormalizingKeepsLines(style, StripSection(style, s, starts), title);
  }

  /** Where a released section goes, and what it still says under each title: what it said, without the promoted items. */
  lemma ReleasedKeepsTheRest<R>(style: Style<R>, lines: seq<Line<R>>, starts: set<nat>, o: nat, title: R)
    requires o < |ParseLines(lines).sections| && ParseLines(lines).sections[o].heading.title != style.unreleased
    ensures
      var s, fixed := ParseLines(lines).sections[o], FixLines(style, lines, starts).document.sections;
      var at := o + Shift(style, ParseLines(lines).sections, AllBatches(style, ParseLines(lines).sections, starts));
      && at < |fixed| && fixed[at].heading == s.heading
      && NonBlank(fixed[at].body.leading) == NonBlank(s.body.leading)
      && UnderTitle(fixed[at].body.subsections, title) == UnderTitle(Stripped(s.body.subsections, starts), title)
  {
    var sections := ParseLines(lines).sections;
    var at := o + Shift(style, sections, AllBatches(style, sections, starts));
    ReleasedIsPlaced(style, sections, starts, o);
    FixedIsNormalized(style, lines, starts, at);
    StrippedKeepsLines(style, sections[o], starts, title);
  }

  /** The unreleased section first says, under each title, all that it said. */
  lemma UnreleasedKeepsItsLines<R>(style: Style<R>, lines: seq<Line<R>>, starts: set<nat>, title: R)
    requires FindUnreleased(style, ParseLines(lines).sections) < |ParseLines(lines).sections|
    ensures
      var u, fixed := FindUnreleased(style, ParseLines(lines).sections), FixLines(style, lines, starts).document.sections;
      && FindUnreleased(style, fixed) == u < |fixed|
      && IsPrefix(UnderTitle(ParseLines(lines).sections[u].body.subsections, title), UnderTitle(fixed[u].body.subsections, title))
  {
    var sections := ParseLines(lines).sections;
    var u := FindUnreleased(style, sections);
    var base, batches := StripAll(style, sections, starts), AllBatches(style, sections, starts);
    StripAllSections(style, sections, starts);
    FindUnreleasedSame(style, base, sections);
    PlaceExtends(style, base, batches, title);
    FixedSections(style, lines, starts);
    NormalizingKeepsLines(style, Place(style, base, batches)[u], title);
  }

  /** The same heading, and the same non-blank lines before the subsections and under the title. */
  ghost predicate SaysTheSame<R>(s: ReleaseSection<R>, r: ReleaseSection<R>, title: R) {
    && s.heading == r.heading && NonBlank(s.body.leading) == NonBlank(r.body.leading)
    && UnderTitle(s.body.subsections, title) == UnderTitle(r.body.subsections, title)
  }

  ghost predicate AllSayTheSame<R>(ss: seq<ReleaseSection<R>>, rs: seq<ReleaseSection<R>>, title: R) {
    |ss| == |rs| && forall i | 0 <= i < |ss| :: SaysTheSame(ss[i], rs[i], title)
  }

  lemma SimilarSaysTheSame<R>(s: ReleaseSection<R>, r: ReleaseSection<R>, title: R)
    requires SimilarSection(s, r)
    ensures SaysTheSame(s, r, title)
  {
    NonBlankKept(s.body.leading);
    OutlinedKeepsLines(s.body.subsections, title);
  }

  lemma UnchangedSaysTheSame<R>(style: Style<R>, lines: seq<Line<R>>, starts: set<nat>, title: R)
    requires Unchanged(FixLines(style, lines, starts))
    ensures AllSayTheSame(ParseLines(lines).sections, FixLines(style, lines, starts).document.sections, title)
  {
    var sections := ParseLines(lines).sections;
    NothingPromoted(style, sections, starts);
    FixedSections(style, lines, starts);
    forall i | 0 <= i < |sections|
      ensures SaysTheSame(sections[i], Normalized(style, sections[i]), title)
    {
      NormalizingKeepsLines(style, sections[i], title);
    }
  }

  /** What a run wrote, read back, says what the fixed document says. */
  lemma WrittenSaysTheSame<R>(style: Style<R>, ok: Line<R> -> bool, lines: seq<Line<R>>, starts: set<nat>, again: seq<Line<R>>, title: R)
    requires Writes(style, ok) && AllReadable(style, ok, lines)
    requires !Unchanged(FixLines(style, lines, starts))
    requires Synthetic(again) == OutputLines(style, FixLines(style, lines, starts).document)
    ensures AllSayTheSame(ParseLines(again).sections, FixLines(style, lines, starts).document.sections, title)
  {
    var d, read := FixLines(style, lines, starts).document, ParseLines(again).sections;
    FixedCanBeWritten(style, ok, lines, starts);
    ChangedHasSections(style, lines, starts);
    DocumentReadsBack(style, d, again);
    forall i | 0 <= i < |read|
      ensures SaysTheSame(read[i], d.sections[i], title)
    {
      SimilarSaysTheSame(read[i], d.sections[i], title);
    }
  }

  /** The released section keeps the rest in whatever says the same as the fixed document. */
  lemma ReleasedRead<R>(style: Style<R>, lines: seq<Line<R>>, starts: set<nat>, o: nat, title: R, read: seq<ReleaseSection<R>>)
    requires o < |ParseLines(lines).sections| && ParseLines(lines).sections[o].heading.title != style.unreleased
    requires AllSayTheSame(read, FixLines(style, lines, starts).document.sections, title)
    ensures
      var s, at := ParseLines(lines).sections[o], o + Shift(style, ParseLines(lines).sections, AllBatches(style, ParseLines(lines).sections, starts));
      && at < |read| && read[at].heading == s.heading
      && NonBlank(read[at].body.leading) == NonBlank(s.body.leading)
      && UnderTitle(read[at].body.subsections, title) == UnderTitle(Stripped(s.body.subsections, starts), title)
  {
    ReleasedKeepsTheRest(style, lines, starts, o, title);
    var fixed := FixLines(style, lines, starts).document.sections;
    var at := o + Shift(style, ParseLines(lines).sections, AllBatches(style, ParseLines(lines).sections, starts));
    assert SaysTheSame(read[at], fixed[at], title);
  }
}
