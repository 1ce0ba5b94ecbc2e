/** The document a changelog is parsed into. */
module ChangelogDocument {
  import opened ChangelogLines

  datatype Subsection<R> = Subsection(title: R, lines: seq<Line<R>>)

  /** A section body: the lines before the first subsection heading, and the subsections. */
  datatype Body<R> = Body(leading: seq<Line<R>>, subsections: seq<Subsection<R>>)

  /** The heading carries the title. */
  datatype ReleaseSection<R> = ReleaseSection(heading: Line<R>, body: Body<R>)

  datatype Document<R> = Document(prefix: seq<Line<R>>, sections: seq<ReleaseSection<R>>)

  /** A line joins the leading lines of the rest, or turns them into its subsection. */
  function ParseBody<R(==)>(lines: seq<Line<R>>): Body<R> {
    if lines == [] then Body([], [])
    else
      var rest := ParseBody(lines[1..]);
      if lines[0].isHeading then Body([], [Subsection(lines[0].title, rest.leading)] + rest.subsections)
      else Body([lines[0]] + rest.leading, rest.subsections)
  }

  /** A line joins the prefix of the rest, or turns it into the body of its section. */
  function ParseLines<R(==)>(lines: seq<Line<R>>): Document<R> {
    if lines == [] then Document([], [])
    else
      var rest := ParseLines(lines[1..]);
      if lines[0].isRelease then
        Document([], [ReleaseSection(lines[0].(number := 0), ParseBody(rest.prefix))] + rest.sections)
      else Document([lines[0]] + rest.prefix, rest.sections)
  }

  lemma AppendFirst<T>(done: seq<T>, x: T, rest: seq<T>)
    ensures done + [x] + rest == done + ([x] + rest)
  {
  }

  /** Collects lines until the next subsection heading. */
  method CollectSubsection<R(==)>(body: seq<Line<R>>, start: nat) returns (lines: seq<Line<R>>, index: nat)
    requires start <= |body|
    ensures start <= index <= |body| && (index < |body| ==> body[index].isHeading)
    ensures ParseBody(body[start..]) == Body(lines, ParseBody(body[index..]).subsections)
  {
    lines, index := [], start;
    while index < |body| && !body[index].isHeading
      invariant start <= index <= |body|
      invariant lines + ParseBody(body[index..]).leading == ParseBody(body[start..]).leading
      invariant ParseBody(body[index..]).subsections == ParseBody(body[start..]).subsections
    {
      assert body[index..][1..] == body[index + 1..];
      AppendFirst(lines, body[index], ParseBody(body[index + 1..]).leading);
      lines := lines + [body[index]];
      index := index + 1;
    }
  }

  method CollectRelease<R(==)>(lines: seq<Line<R>>, start: nat) returns (body: seq<Line<R>>, index: nat)
    requires start <= |lines|
    ensures start <= index <= |lines| && (index < |lines| ==> lines[index].isRelease)
    ensures ParseLines(lines[start..]) == Document(body, ParseLines(lines[index..]).sections)
  {
    body, index := [], start;
    while index < |lines| && !lines[index].isRelease
      invariant start <= index <= |lines|
      invariant body + ParseLines(lines[index..]).prefix == ParseLines(lines[start..]).prefix
      invariant ParseLines(lines[index..]).sections == ParseLines(lines[start..]).sections
    {
      assert lines[index..][1..] == lines[index + 1..];
      AppendFirst(body, lines[index], ParseLines(lines[index + 1..]).prefix);
      body := body + [lines[index]];
      index := index + 1;
    }
  }

  method ParseSectionBody<R(==)>(lines: seq<Line<R>>) returns (body: Body<R>)
    ensures body == ParseBody(lines)
  {
    var leading, index := CollectSubsection(lines, 0);
    assert lines[0..] == lines;
    var subsections: seq<Subsection<R>> := [];
    while index < |lines|
      invariant index <= |lines| && (index < |lines| ==> lines[index].isHeading)
      invariant subsections + ParseBody(lines[index..]).subsections == ParseBody(lines).subsections
      decreases |lines| - index
    {
      assert lines[index..][1..] == lines[index + 1..];
      var title := lines[index].title;
      var collected, next := CollectSubsection(lines, index + 1);
      AppendFirst(subsections, Subsection(title, collected), ParseBody(lines[next..]).subsections);
      subsections, index := subsections + [Subsection(title, collected)], next;
    }
    body := Body(leading, subsections);
  }

  method ParseDocument<R(==)>(lines: seq<Line<R>>) returns (d: Document<R>)
    ensures d == ParseLines(lines)
  {
    var prefix, index := CollectRelease(lines, 0);
    assert lines[0..] == lines;
    var sections: seq<ReleaseSection<R>> := [];
    while index < |lines|
      invariant index <= |lines| && (index < |lines| ==> lines[index].isRelease)
      invariant sections + ParseLines(lines[index..]).sections == ParseLines(lines).sections
      decreases |lines| - index
    {
      assert lines[index..][1..] == lines[index + 1..];
      var heading := lines[index].(number := 0);
      var collected, next := CollectRelease(lines, index + 1);
      var body := ParseSectionBody(collected);
      var section := ReleaseSection(heading, body);
      AppendFirst(sections, section, ParseLines(lines[next..]).sections);
      sections, index := sections + [section], next;
    }
    d := Document(prefix, sections);
  }
}
