/** Writing a changelog document as lines. */
module ChangelogRender {
  import opened ChangelogLines
  import opened ChangelogDocument

  function SubsectionPart<R(==)>(style: Style<R>, s: Subsection<R>): seq<Line<R>> {
    var lines := Kept(s.lines);
    if lines == [] then [] else [Empty(style), HeadingLine(style, s.title)] + ([Empty(style)] + lines)
  }

  function SubsectionLines<R(==)>(style: Style<R>, subs: seq<Subsection<R>>): seq<Line<R>> {
    if subs == [] then [] else SubsectionPart(style, subs[0]) + SubsectionLines(style, subs[1..])
  }

  function LeadingLines<R(==)>(style: Style<R>, leading: seq<Line<R>>): seq<Line<R>> {
    var lines := Kept(leading);
    if lines == [] then [] else [Empty(style)] + lines
  }

  function BodyLines<R(==)>(style: Style<R>, b: Body<R>): seq<Line<R>> {
    LeadingLines(style, b.leading) + SubsectionLines(style, b.subsections)
  }

  /** Each section: its heading, its body, and a blank line. */
  function SectionLines<R(==)>(style: Style<R>, sections: seq<ReleaseSection<R>>): seq<Line<R>> {
    if sections == [] then []
    else [sections[0].heading] + (BodyLines(style, sections[0].body) + ([Empty(style)] + SectionLines(style, sections[1..])))
  }

  function PrefixLines<R(==)>(style: Style<R>, prefix: seq<Line<R>>): seq<Line<R>> {
    var lines := Kept(prefix);
    if lines == [] then [] else lines + [Empty(style)]
  }

  function DropEmptyEnd<R(==)>(style: Style<R>, lines: seq<Line<R>>): seq<Line<R>> {
    if lines != [] && lines[|lines| - 1] == Empty(style) then DropEmptyEnd(style, lines[..|lines| - 1]) else lines
  }

  function OutputLines<R(==)>(style: Style<R>, d: Document<R>): seq<Line<R>> {
    DropEmptyEnd(style, PrefixLines(style, d.prefix) + SectionLines(style, d.sections))
  }

  method RenderSubsection<R(==)>(style: Style<R>, s: Subsection<R>) returns (part: seq<Line<R>>)
    ensures part == SubsectionPart(style, s)
  {
    var lines := TrimBlankLines(Synthetic(s.lines));
    if lines == [] {
      return [];
    }
    part := [Empty(style), HeadingLine(style, s.title)] + ([Empty(style)] + lines);
  }

  method RenderSubsections<R(==)>(style: Style<R>, head: seq<Line<R>>, subs: seq<Subsection<R>>) returns (output: seq<Line<R>>)
    ensures output == head + SubsectionLines(style, subs)
  {
    output := head;
    assert subs[0..] == subs;
    for i := 0 to |subs|
      invariant output + SubsectionLines(style, subs[i..]) == head + SubsectionLines(style, subs)
    {
      assert subs[i..][1..] == subs[i + 1..];
      Regroup(output, SubsectionPart(style, subs[i]), SubsectionLines(style, subs[i + 1..]));
      var part := RenderSubsection(style, subs[i]);
      output := output + part;
    }
  }

  method RenderSections<R(==)>(style: Style<R>, head: seq<Line<R>>, sections: seq<ReleaseSection<R>>) returns (output: seq<Line<R>>)
    ensures output == head + SectionLines(style, sections)
  {
    output := head;
    assert sections[0..] == sections;
    for i := 0 to |sections|
      invariant output + SectionLines(style, sections[i..]) == head + SectionLines(style, sections)
    {
      assert sections[i..][1..] == sections[i + 1..];
      ghost var before, rest := output, SectionLines(style, sections[i + 1..]);
      var section := sections[i];
      var leading := TrimBlankLines(Synthetic(section.body.leading));
      var shown := if leading == [] then [] else [Empty(style)] + leading;
      var body := RenderSubsections(style, shown, section.body.subsections);
      Regroup3(output, [section.heading], body, [Empty(style)], rest);
      output := output + [section.heading] + body + [Empty(style)];
    }
  }

  lemma Regroup3<T>(a: seq<T>, b: seq<T>, c: seq<T>, d: seq<T>, e: seq<T>)
    ensures a + b + c + d + e == a + (b + (c + (d + e)))
  {
  }

  method RenderLines<R(==)>(style: Style<R>, d: Document<R>) returns (output: seq<Line<R>>)
    ensures output == OutputLines(style, d)
  {
    output := [];
    var prefix := TrimBlankLines(Synthetic(d.prefix));
    if prefix != [] {
      output := prefix + [Empty(style)];
    }
    output := RenderSections(style, output, d.sections);
    while output != [] && output[|output| - 1] == Empty(style)
      invariant DropEmptyEnd(style, output) == OutputLines(style, d)
      decreases |output|
    {
      output := output[..|output| - 1];
    }
  }
}
