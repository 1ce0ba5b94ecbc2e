/** Parsing what was written recovers the document, but for line numbers and blank ends. */
module ChangelogRoundTrip {
  import opened ChangelogLines
  import opened ChangelogDocument
  import opened ChangelogNormalize
  import opened ChangelogRender

  function NoNumbers<R(==)>(subs: seq<Subsection<R>>): (t: seq<Subsection<R>>)
    ensures |t| == |subs| && forall i | 0 <= i < |subs| :: t[i] == Subsection(subs[i].title, Synthetic(subs[i].lines))
  {
    seq(|subs|, i requires 0 <= i < |subs| => Subsection(subs[i].title, Synthetic(subs[i].lines)))
  }

  lemma {:induction false} ParseBodyIgnoresNumbers<R>(ls: seq<Line<R>>)
    ensures
      var b := ParseBody(ls);
      ParseBody(Synthetic(ls)) == Body(Synthetic(b.leading), NoNumbers(b.subsections))
  {
    if ls != [] {
      assert Synthetic(ls)[1..] == Synthetic(ls[1..]);
      ParseBodyIgnoresNumbers(ls[1..]);
    }
  }

  lemma {:induction false} PlainThenRest<R>(before: seq<Line<R>>, rest: seq<Line<R>>)
    requires forall i | 0 <= i < |before| :: !before[i].isHeading
    ensures ParseBody(before + rest) == Body(before + ParseBody(rest).leading, ParseBody(rest).subsections)
  {
    if before == [] {
      assert before + rest == rest;
    } else {
      assert (before + rest)[1..] == before[1..] + rest;
      PlainThenRest(before[1..], rest);
    }
  }

  lemma HeadingThenRest<R>(heading: Line<R>, rest: seq<Line<R>>)
    requires heading.isHeading
    ensures
      var b := ParseBody(rest);
      ParseBody([heading] + rest) == Body([], [Subsection(heading.title, b.leading)] + b.subsections)
  {
    assert ([heading] + rest)[1..] == rest;
  }

  lemma OwnLines<R>(style: Style<R>, lines: seq<Line<R>>, gap: seq<Line<R>>)
    requires Clean(lines) && AllBlank(gap)
    ensures Kept([Empty(style)] + lines + gap) == lines
  {
    assert Synthetic([Empty(style)] + lines + gap) == [Empty(style)] + lines + Synthetic(gap);
    TrimLinesUnique([Empty(style)], lines, Synthetic(gap));
  }

  lemma OutlinedCons<R>(s: Subsection<R>, rest: seq<Subsection<R>>)
    ensures Outlined([s] + rest) == [Subsection(s.title, Kept(s.lines))] + Outlined(rest)
  {
  }

  /** A written subsection reads back as one, whatever follows it. */
  lemma SubsectionThenRest<R>(style: Style<R>, s: Subsection<R>, rest: seq<Line<R>>)
    requires CleanSubsection(s)
    ensures
      var b := ParseBody(rest);
      ParseBody(SubsectionPart(style, s) + rest)
      == Body([Empty(style)], [Subsection(s.title, [Empty(style)] + s.lines + b.leading)] + b.subsections)
  {
    var e, h, own := [Empty(style)], [HeadingLine(style, s.title)], [Empty(style)] + s.lines;
    CleanKept(s.lines);
    assert SubsectionPart(style, s) + rest == e + (h + (own + rest));
    PlainThenRest(own, rest);
    HeadingThenRest(h[0], own + rest);
    PlainThenRest(e, h + (own + rest));
  }

  /** Written subsections, then blank lines, read back. */
  lemma {:induction false} SubsectionsReadBack<R>(style: Style<R>, subs: seq<Subsection<R>>, end: seq<Line<R>>)
    requires forall i | 0 <= i < |subs| :: CleanSubsection(subs[i])
    requires AllBlank(end) && AllPlain(end)
    ensures AllBlank(ParseBody(SubsectionLines(style, subs) + end).leading)
    ensures Outlined(ParseBody(SubsectionLines(style, subs) + end).subsections) == subs
    decreases |subs|
  {
    if subs == [] {
      PlainThenRest(end, []);
      assert end + [] == end && SubsectionLines(style, subs) + end == end;
    } else {
      var s, rest := subs[0], SubsectionLines(style, subs[1..]) + end;
      SubsectionsReadBack(style, subs[1..], end);
      Regroup(SubsectionPart(style, s), SubsectionLines(style, subs[1..]), end);
      SubsectionThenRest(style, s, rest);
      var b := ParseBody(rest);
      OwnLines(style, s.lines, b.leading);
      OutlinedCons(Subsection(s.title, [Empty(style)] + s.lines + b.leading), b.subsections);
    }
  }

  lemma LeadingKept<R>(style: Style<R>, leading: seq<Line<R>>, gap: seq<Line<R>>)
    requires Clean(leading) && AllBlank(gap)
    ensures Kept(LeadingLines(style, leading) + gap) == leading
  {
    CleanKept(leading);
    if leading == [] {
      assert LeadingLines(style, leading) + gap == gap;
      KeptKeeps(gap);
    } else {
      OwnLines(style, leading, gap);
    }
  }

  lemma LeadingIsPlain<R>(style: Style<R>, leading: seq<Line<R>>)
    requires Clean(leading)
    ensures AllPlain(LeadingLines(style, leading))
  {
    CleanKept(leading);
  }

  /** A written body, then blank lines, reads back. */
  lemma BodyReadsBack<R>(style: Style<R>, body: Body<R>, end: seq<Line<R>>)
    requires Clean(body.leading) && forall i | 0 <= i < |body.subsections| :: CleanSubsection(body.subsections[i])
    requires AllBlank(end) && AllPlain(end)
    ensures Kept(ParseBody(BodyLines(style, body) + end).leading) == body.leading
    ensures Outlined(ParseBody(BodyLines(style, body) + end).subsections) == body.subsections
  {
    var leading, rest := LeadingLines(style, body.leading), SubsectionLines(style, body.subsections);
    Regroup(leading, rest, end);
    SubsectionsReadBack(style, body.subsections, end);
    LeadingIsPlain(style, body.leading);
    PlainThenRest(leading, rest + end);
    LeadingKept(style, body.leading, ParseBody(rest + end).leading);
  }

  lemma {:induction false} PrefixThenRest<R>(before: seq<Line<R>>, rest: seq<Line<R>>)
    requires forall i | 0 <= i < |before| :: !before[i].isRelease
    ensures ParseLines(before + rest) == Document(before + ParseLines(rest).prefix, ParseLines(rest).sections)
  {
    if before == [] {
      assert before + rest == rest;
    } else {
      assert (before + rest)[1..] == before[1..] + rest;
      PrefixThenRest(before[1..], rest);
    }
  }

  lemma ReleaseThenRest<R>(heading: Line<R>, rest: seq<Line<R>>)
    requires heading.isRelease && heading.number == 0
    ensures
      var d := ParseLines(rest);
      ParseLines([heading] + rest) == Document([], [ReleaseSection(heading, ParseBody(d.prefix))] + d.sections)
  {
    assert ([heading] + rest)[1..] == rest;
  }

  /** No release heading, and not a blank line at the end. */
  predicate InsideRelease<R(==)>(ls: seq<Line<R>>) {
    (ls != [] ==> !ls[|ls| - 1].isBlank) && forall i | 0 <= i < |ls| :: !ls[i].isRelease
  }

  lemma {:induction false} SubsectionLinesInside<R>(style: Style<R>, subs: seq<Subsection<R>>)
    requires forall i | 0 <= i < |subs| :: CleanSubsection(subs[i])
    ensures InsideRelease(SubsectionLines(style, subs))
  {
    if subs != [] {
      CleanKept(subs[0].lines);
      SubsectionLinesInside(style, subs[1..]);
    }
  }

  /** A section that can be written: a release heading over a clean body. */
  ghost predicate Writable<R>(s: ReleaseSection<R>) {
    && s.heading.isRelease && s.heading.number == 0 && !s.heading.isBlank
    && Clean(s.body.leading) && forall i | 0 <= i < |s.body.subsections| :: CleanSubsection(s.body.subsections[i])
  }

  lemma BodyLinesInside<R>(style: Style<R>, b: Body<R>)
    requires Clean(b.leading) && forall i | 0 <= i < |b.subsections| :: CleanSubsection(b.subsections[i])
    ensures InsideRelease(BodyLines(style, b))
  {
    SubsectionLinesInside(style, b.subsections);
    LeadingIsPlain(style, b.leading);
    CleanKept(b.leading);
  }

  /** The lines of the sections without the last blank line. */
  function Written<R(==)>(style: Style<R>, sections: seq<ReleaseSection<R>>): seq<Line<R>>
    requires sections != []
  {
    var rest := if |sections| == 1 then [] else [Empty(style)] + Written(style, sections[1..]);
    [sections[0].heading] + (BodyLines(style, sections[0].body) + rest)
  }

  ghost predicate EndsNonBlank<R>(ls: seq<Line<R>>) {
    ls != [] && !ls[|ls| - 1].isBlank
  }

  lemma ShiftEnd<T>(a: seq<T>, b: seq<T>, c: seq<T>, e: seq<T>)
    ensures a + (b + (c + e)) == a + (b + c) + e
  {
  }

  lemma LastIsLast<R>(a: seq<Line<R>>, b: seq<Line<R>>, c: seq<Line<R>>)
    requires EndsNonBlank(a) && (b == [] || EndsNonBlank(b)) && (c == [] || EndsNonBlank(c))
    ensures EndsNonBlank(a + (b + c))
  {
  }

  lemma {:induction false} OneBlankAtEnd<R>(style: Style<R>, sections: seq<ReleaseSection<R>>)
    requires sections != [] && forall i | 0 <= i < |sections| :: Writable(sections[i])
    ensures SectionLines(style, sections) == Written(style, sections) + [Empty(style)]
    ensures EndsNonBlank(Written(style, sections))
  {
    var e, heading, body := [Empty(style)], [sections[0].heading], BodyLines(style, sections[0].body);
    assert Writable(sections[0]);
    BodyLinesInside(style, sections[0].body);
    if |sections| == 1 {
      assert SectionLines(style, sections[1..]) == [];
      assert [] + e == e + [];
      ShiftEnd(heading, body, [], e);
      LastIsLast(heading, body, []);
    } else {
      OneBlankAtEnd(style, sections[1..]);
      var rest := Written(style, sections[1..]);
      Regroup(e, rest, e);
      ShiftEnd(heading, body, e + rest, e);
      LastIsLast(heading, body, e + rest);
    }
  }

  ghost predicate SimilarSections<R>(ss: seq<ReleaseSection<R>>, rs: seq<ReleaseSection<R>>) {
    |ss| == |rs| && forall i | 0 <= i < |ss| :: SimilarSection(ss[i], rs[i])
  }

  /** A section reads back, whatever blank line ends it and whatever section follows. */
  lemma SectionThenRest<R>(style: Style<R>, s: ReleaseSection<R>, end: seq<Line<R>>, rest: seq<Line<R>>)
    requires Writable(s) && ParseLines(rest).prefix == [] && AllBlank(end) && AllPlain(end)
    ensures
      var d := ParseLines([s.heading] + (BodyLines(style, s.body) + (end + rest)));
      && d.prefix == []
      && |d.sections| == |ParseLines(rest).sections| + 1
      && SimilarSection(d.sections[0], s)
      && d.sections[1..] == ParseLines(rest).sections
  {
    BodyLinesInside(style, s.body);
    var body := BodyLines(style, s.body) + end;
    PrefixThenRest(body, rest);
    assert body + [] == body;
    ReleaseThenRest(s.heading, body + rest);
    Regroup(BodyLines(style, s.body), end, rest);
    BodyReadsBack(style, s.body, end);
  }

  lemma SimilarCons<R>(ss: seq<ReleaseSection<R>>, rs: seq<ReleaseSection<R>>)
    requires ss != [] && rs != [] && SimilarSection(ss[0], rs[0]) && SimilarSections(ss[1..], rs[1..])
    ensures SimilarSections(ss, rs)
  {
    assert forall i | 1 <= i < |ss| :: ss[i] == ss[1..][i - 1];
    assert forall i | 1 <= i < |rs| :: rs[i] == rs[1..][i - 1];
  }

  lemma {:induction false} SectionsReadBack<R>(style: Style<R>, sections: seq<ReleaseSection<R>>)
    requires sections != [] && forall i | 0 <= i < |sections| :: Writable(sections[i])
    ensures ParseLines(Written(style, sections)).prefix == []
    ensures SimilarSections(ParseLines(Written(style, sections)).sections, sections)
  {
    assert Writable(sections[0]);
    if |sections| == 1 {
      SectionThenRest(style, sections[0], [], []);
    } else {
      SectionsReadBack(style, sections[1..]);
      SectionThenRest(style, sections[0], [Empty(style)], Written(style, sections[1..]));
    }
    SimilarCons(ParseLines(Written(style, sections)).sections, sections);
  }

  function NoSectionNumbers<R(==)>(ss: seq<ReleaseSection<R>>): (t: seq<ReleaseSection<R>>)
    ensures |t| == |ss|
    ensures
      forall i | 0 <= i < |ss| ::
        t[i] == ReleaseSection(ss[i].heading, Body(Synthetic(ss[i].body.leading), NoNumbers(ss[i].body.subsections)))
  {
    seq(|ss|, i requires 0 <= i < |ss| =>
      ReleaseSection(ss[i].heading, Body(Synthetic(ss[i].body.leading), NoNumbers(ss[i].body.subsections))))
  }

  lemma NoSectionNumbersCons<R>(s: ReleaseSection<R>, rest: seq<ReleaseSection<R>>)
    ensures
      NoSectionNumbers([s] + rest)
      == [ReleaseSection(s.heading, Body(Synthetic(s.body.leading), NoNumbers(s.body.subsections)))] + NoSectionNumbers(rest)
  {
  }

  /** Line numbers change nothing but themselves. */
  lemma {:induction false} ParseIgnoresNumbers<R>(ls: seq<Line<R>>)
    ensures
      var d := ParseLines(ls);
      ParseLines(Synthetic(ls)) == Document(Synthetic(d.prefix), NoSectionNumbers(d.sections))
  {
    if ls != [] {
      assert Synthetic(ls)[1..] == Synthetic(ls[1..]);
      ParseIgnoresNumbers(ls[1..]);
      var d := ParseLines(ls[1..]);
      ParseBodyIgnoresNumbers(d.prefix);
      if ls[0].isRelease {
        NoSectionNumbersCons(ReleaseSection(ls[0].(number := 0), ParseBody(d.prefix)), d.sections);
      } else {
        assert Synthetic([ls[0]] + d.prefix) == [ls[0].(number := 0)] + Synthetic(d.prefix);
      }
    }
  }

  lemma SimilarWithNumbers<R>(ss: seq<ReleaseSection<R>>, rs: seq<ReleaseSection<R>>)
    requires SimilarSections(NoSectionNumbers(ss), rs)
    ensures SimilarSections(ss, rs)
  {
    var ts := NoSectionNumbers(ss);
    forall i | 0 <= i < |ss|
      ensures SimilarSection(ss[i], rs[i])
    {
      assert SimilarSection(ts[i], rs[i]);
      assert Synthetic(ts[i].body.leading) == Synthetic(ss[i].body.leading);
      forall j | 0 <= j < |ss[i].body.subsections|
        ensures Outlined(ts[i].body.subsections)[j] == Outlined(ss[i].body.subsections)[j]
      {
        assert Synthetic(ts[i].body.subsections[j].lines) == Synthetic(ss[i].body.subsections[j].lines);
      }
      assert Outlined(ts[i].body.subsections) == Outlined(ss[i].body.subsections);
    }
  }

  lemma PrefixKept<R>(style: Style<R>, prefix: seq<Line<R>>)
    requires AllPlainPrefix(prefix)
    ensures AllPlainPrefix(PrefixLines(style, prefix)) && TrimLines(PrefixLines(style, prefix)) == Kept(prefix)
  {
    KeptKeeps(prefix);
    var kept := Kept(prefix);
    forall i | 0 <= i < |kept|
      ensures !kept[i].isRelease
    {
      assert kept[i] in Synthetic(prefix);
    }
    TrimLinesKeeps(kept);
    TrimLinesUnique([], kept, [Empty(style)]);
    assert [] + kept + [Empty(style)] == kept + [Empty(style)];
  }

  predicate AllPlainPrefix<R(==)>(prefix: seq<Line<R>>) {
    forall i | 0 <= i < |prefix| :: !prefix[i].isRelease
  }

  /** What is written ends with the last line that is not blank. */
  lemma OutputIsWritten<R>(style: Style<R>, d: Document<R>)
    requires d.sections != [] && forall i | 0 <= i < |d.sections| :: Writable(d.sections[i])
    ensures OutputLines(style, d) == PrefixLines(style, d.prefix) + Written(style, d.sections)
  {
    var before, written, e := PrefixLines(style, d.prefix), Written(style, d.sections), [Empty(style)];
    OneBlankAtEnd(style, d.sections);
    var shown := before + written;
    Regroup(before, written, e);
    assert (shown + e)[..|shown + e| - 1] == shown;
    assert shown[|shown| - 1] == written[|written| - 1];
    assert DropEmptyEnd(style, shown) == shown;
    assert DropEmptyEnd(style, shown + e) == shown;
  }

  /** Reading back a written document recovers it, whatever numbers its lines now have. */
  lemma DocumentReadsBack<R>(style: Style<R>, d: Document<R>, ls: seq<Line<R>>)
    requires d.sections != [] && forall i | 0 <= i < |d.sections| :: Writable(d.sections[i])
    requires AllPlainPrefix(d.prefix) && Synthetic(ls) == OutputLines(style, d)
    ensures Kept(ParseLines(ls).prefix) == Kept(d.prefix)
    ensures SimilarSections(ParseLines(ls).sections, d.sections)
  {
    var before := PrefixLines(style, d.prefix);
    OutputIsWritten(style, d);
    PrefixKept(style, d.prefix);
    SectionsReadBack(style, d.sections);
    PrefixThenRest(before, Written(style, d.sections));
    assert before + [] == before;
    ParseIgnoresNumbers(ls);
    SimilarWithNumbers(ParseLines(ls).sections, d.sections);
  }
}
