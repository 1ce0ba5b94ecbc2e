/** The changelog fixer on text. */
module Changelog {
  import opened ChangelogText
  import opened ChangelogLines
  import opened ChangelogDocument
  import opened ChangelogNormalize
  import opened ChangelogItems
  import opened ChangelogPromotion
  import opened ChangelogRender
  import opened ChangelogShape
  import opened ChangelogContent
  import opened ChangelogDelivery
  import opened ChangelogFix

  datatype FixResult = FixResult(content: string, promotedItems: nat, mergedDuplicateHeadings: nat, removedEmptyHeadings: nat)

  function Numbered(texts: seq<Line<string>>): (lines: seq<Line<string>>)
    requires forall i | 0 <= i < |texts| :: texts[i].number == 0
    ensures |lines| == |texts| && Consecutive(lines, 1) && Synthetic(lines) == texts
  {
    seq(|texts|, i requires 0 <= i < |texts| => texts[i].(number := i + 1))
  }

  function SourceLines(content: string): (lines: seq<Line<string>>)
    ensures Consecutive(lines, 1)
  {
    var texts := LexLines(content);
    assert forall i | 0 <= i < |texts| :: Lexed(texts[i]);
    Numbered(texts)
  }

  function Render(d: Document<string>): string {
    Join(RawLines(OutputLines(CHANGELOG, d))) + "\n"
  }

  function Fix(content: string, starts: set<nat>): FixResult {
    var f := FixLines(CHANGELOG, SourceLines(content), starts);
    FixResult(if Unchanged(f) then content else Render(f.document), f.promoted, f.counters.merged, f.counters.removed)
  }

  method FixChangelogContent(content: string, starts: set<nat>) returns (r: FixResult)
    ensures r == Fix(content, starts)
  {
    var f := FixDocument(CHANGELOG, SourceLines(content), starts);
    if f.promoted == 0 && f.counters.merged == 0 && f.counters.removed == 0 {
      return FixResult(content, 0, 0, 0);
    }
    var output := RenderLines(CHANGELOG, f.document);
    r := FixResult(Join(RawLines(output)) + "\n", f.promoted, f.counters.merged, f.counters.removed);
  }

  /** A release heading reads back as its title. */
  lemma ReleaseReadsBack(title: string)
    requires title != [] && ']' !in title && OneLine(title)
    ensures Lexed(Line("## [" + title + "]", 0, true, false, false, false, title))
  {
    var h := "## [" + title + "]";
    var k := 4 + |title|;
    assert h[4..k] == title && h[k] == ']';
    assert forall j | 4 <= j < k :: h[j] == title[j - 4];
    CloseBracketIs(h, 4, k);
    assert SkipSpaces(h, 0) == 0;
  }

  lemma CloseBracketIs(s: string, i: nat, k: nat)
    requires i <= k < |s| && s[k] == ']' && forall j | i <= j < k :: s[j] != ']'
    ensures CloseBracket(s, i) == k
  {
  }

  lemma UnreleasedReadsBack()
    ensures Lexed(UnreleasedHeading(CHANGELOG))
  {
    assert ']' !in UNRELEASED && OneLine(UNRELEASED);
    ReleaseReadsBack(UNRELEASED);
  }

  /** Lines of a text are read as they are written. */
  lemma SourceIsReadable(content: string)
    ensures AllReadable(CHANGELOG, Lexed, SourceLines(content))
  {
    var texts, lines := LexLines(content), SourceLines(content);
    forall i | 0 <= i < |lines|
      ensures Readable(CHANGELOG, Lexed, lines[i])
    {
      assert lines[i].(number := 0) == texts[i] && Lexed(texts[i]);
      KindsExclude(texts[i].raw);
      if texts[i].isHeading {
        ParsedTitleIsTitle(texts[i]);
        HeadingReadsBack(texts[i].title);
      }
    }
  }

  lemma CanWrite()
    ensures Writes(CHANGELOG, Lexed)
  {
    KindsExclude("");
    UnreleasedReadsBack();
  }

  lemma ChangedIsWritten(content: string, starts: set<nat>)
    requires !Unchanged(FixLines(CHANGELOG, SourceLines(content), starts))
    ensures
      var d := FixLines(CHANGELOG, SourceLines(content), starts).document;
      Synthetic(SourceLines(Render(d))) == OutputLines(CHANGELOG, d)
  {
    var lines := SourceLines(content);
    var d := FixLines(CHANGELOG, lines, starts).document;
    var output := OutputLines(CHANGELOG, d);
    SourceIsReadable(content);
    CanWrite();
    FixedCanBeWritten(CHANGELOG, Lexed, lines, starts);
    OutputIsGood(CHANGELOG, Lexed, d);
    OutputHasLines(lines, starts);
    WrittenLinesReadBack(output);
  }

  lemma OutputHasLines(lines: seq<Line<string>>, starts: set<nat>)
    requires AllReadable(CHANGELOG, Lexed, lines) && !Unchanged(FixLines(CHANGELOG, lines, starts))
    ensures OutputLines(CHANGELOG, FixLines(CHANGELOG, lines, starts).document) != []
  {
    CanWrite();
    FixedCanBeWritten(CHANGELOG, Lexed, lines, starts);
    ChangedHasSections(CHANGELOG, lines, starts);
    ChangelogRoundTrip.OutputIsWritten(CHANGELOG, FixLines(CHANGELOG, lines, starts).document);
    ChangelogRoundTrip.OneBlankAtEnd(CHANGELOG, FixLines(CHANGELOG, lines, starts).document.sections);
  }

  /** Fixing is idempotent, whatever the text and whatever was promotable the first time. */
  lemma FixIsIdempotent(content: string, starts: set<nat>)
    ensures Fix(Fix(content, starts).content, {}) == FixResult(Fix(content, starts).content, 0, 0, 0)
  {
    var lines := SourceLines(content);
    if Unchanged(FixLines(CHANGELOG, lines, starts)) {
      UnchangedAgain(CHANGELOG, lines, starts);
    } else {
      SourceIsReadable(content);
      CanWrite();
      ChangedIsWritten(content, starts);
      WrittenStays(CHANGELOG, Lexed, lines, starts, SourceLines(Fix(content, starts).content));
    }
  }

  lemma SourceIsSane(content: string)
    ensures SaneSections(ParseLines(SourceLines(content)).sections)
  {
    var texts, lines := LexLines(content), SourceLines(content);
    forall k | 0 <= k < |lines|
      ensures !(lines[k].isBlank && lines[k].isItem)
    {
      assert lines[k].(number := 0) == texts[k] && Lexed(texts[k]);
      KindsExclude(texts[k].raw);
    }
    ParsedIsSane(lines);
  }

  /** In the fixed text, read again, every promoted item stands under its own title in the first unreleased section. */
  lemma PromotedItemIsListed(content: string, starts: set<nat>, o: nat, j: nat, i: nat)
    requires
      var sections := ParseLines(SourceLines(content)).sections;
      && o < |sections| && sections[o].heading.title != UNRELEASED && j < |sections[o].body.subsections|
      && i < |Promotable(ItemsOf(sections[o].body.subsections[j].lines), starts)|
    ensures
      var sub := ParseLines(SourceLines(content)).sections[o].body.subsections[j];
      var fixed := ParseLines(SourceLines(Fix(content, starts).content)).sections;
      var u := FindUnreleased(CHANGELOG, fixed);
      && u < |fixed|
      && Found(fixed[u].body.subsections, sub.title, Promotable(ItemsOf(sub.lines), starts)[i].lines)
  {
    var lines := SourceLines(content);
    SourceIsSane(content);
    SourceIsReadable(content);
    CanWrite();
    PromotableChanges(CHANGELOG, lines, starts, o, j);
    ChangedIsWritten(content, starts);
    SourceIsSane(Fix(content, starts).content);
    PromotedItemIsWritten(CHANGELOG, Lexed, lines, starts, SourceLines(Fix(content, starts).content), o, j, i);
  }

  /** The fixed text, read again, says what the fixed document says, section by section. */
  lemma TextSaysTheSame(content: string, starts: set<nat>, title: string)
    ensures
      AllSayTheSame(
        ParseLines(SourceLines(Fix(content, starts).content)).sections,
        FixLines(CHANGELOG, SourceLines(content), starts).document.sections, title)
  {
    var lines := SourceLines(content);
    if Unchanged(FixLines(CHANGELOG, lines, starts)) {
      UnchangedSaysTheSame(CHANGELOG, lines, starts, title);
    } else {
      SourceIsReadable(content);
      CanWrite();
      ChangedIsWritten(content, starts);
      WrittenSaysTheSame(CHANGELOG, Lexed, lines, starts, SourceLines(Fix(content, starts).content), title);
    }
  }

  /** In the fixed text, read again, every released section says under each title what it said, without the promoted items. */
  lemma ReleasedTextKeepsTheRest(content: string, starts: set<nat>, o: nat, title: string)
    requires
      var sections := ParseLines(SourceLines(content)).sections;
      o < |sections| && sections[o].heading.title != UNRELEASED
    ensures
      var sections, fixed := ParseLines(SourceLines(content)).sections, ParseLines(SourceLines(Fix(content, starts).content)).sections;
      var at := o + Shift(CHANGELOG, sections, AllBatches(CHANGELOG, sections, starts));
      && at < |fixed| && fixed[at].heading == sections[o].heading
      && NonBlank(fixed[at].body.leading) == NonBlank(sections[o].body.leading)
      && UnderTitle(fixed[at].body.subsections, title) == UnderTitle(Stripped(sections[o].body.subsections, starts), title)
  {
    TextSaysTheSame(content, starts, title);
    ReleasedRead(CHANGELOG, SourceLines(content), starts, o, title, ParseLines(SourceLines(Fix(content, starts).content)).sections);
  }

  /** And the unreleased section first says, under each title, all that it said. */
  lemma UnreleasedTextKeepsItsLines(content: string, starts: set<nat>, title: string)
    requires
      var sections := ParseLines(SourceLines(content)).sections;
      FindUnreleased(CHANGELOG, sections) < |sections|
    ensures
      var sections, fixed := ParseLines(SourceLines(content)).sections, ParseLines(SourceLines(Fix(content, starts).content)).sections;
      var u := FindUnreleased(CHANGELOG, sections);
      && FindUnreleased(CHANGELOG, fixed) == u < |fixed|
      && IsPrefix(UnderTitle(sections[u].body.subsections, title), UnderTitle(fixed[u].body.subsections, title))
  {
    var lines := SourceLines(content);
    UnreleasedKeepsItsLines(CHANGELOG, lines, starts, title);
    TextSaysTheSame(content, starts, title);
    FindUnreleasedSame(CHANGELOG, ParseLines(SourceLines(Fix(content, starts).content)).sections, FixLines(CHANGELOG, lines, starts).document.sections);
  }
}
