/** Every promoted item arrives: it is an item of the unreleased section under its own title, before and after normalising. */
module ChangelogDelivery {
  import opened ChangelogLines
  import opened ChangelogDocument
  import opened ChangelogNormalize
  import opened ChangelogItems
  import opened ChangelogPromotion
  import opened ChangelogContent

  datatype Texted<R> = Texted(before: seq<Line<R>>, texts: seq<seq<Line<R>>>)

  /** The texts of the items of a list of lines, and the lines before the first item. */
  function Texts<R(==)>(lines: seq<Line<R>>): Texted<R> {
    if lines == [] then Texted([], [])
    else
      var rest := Texts(lines[1..]);
      if lines[0].isItem then Texted([], [Kept([lines[0]] + rest.before)] + rest.texts)
      else Texted([lines[0]] + rest.before, rest.texts)
  }

  lemma {:induction false} TextsAreItems<R>(lines: seq<Line<R>>, wanted: seq<Line<R>>)
    ensures Groups(lines).before == Texts(lines).before
    ensures HasItem(ItemsOf(lines), wanted) <==> wanted in Texts(lines).texts
  {
    if lines != [] {
      var l, t := lines[0], lines[1..];
      TextsAreItems(t, wanted);
      if l.isItem {
        var first := Group(l, Groups(t).before);
        assert ([first] + Groups(t).groups)[1..] == Groups(t).groups;
        assert ItemsOf(lines)[1..] == ItemsOf(t);
      }
    }
  }

  /** Blank lines are not items. */
  predicate Sane<R(==)>(lines: seq<Line<R>>) {
    forall i | 0 <= i < |lines| :: !(lines[i].isBlank && lines[i].isItem)
  }

  predicate NoItems<R(==)>(lines: seq<Line<R>>) {
    forall i | 0 <= i < |lines| :: !lines[i].isItem
  }

  lemma {:induction false} TextsAfterNoItems<R>(a: seq<Line<R>>, b: seq<Line<R>>)
    requires NoItems(a)
    ensures Texts(a + b) == Texted(a + Texts(b).before, Texts(b).texts)
  {
    if a == [] {
      assert a + b == b;
    } else {
      assert (a + b)[1..] == a[1..] + b;
      TextsAfterNoItems(a[1..], b);
    }
  }

  lemma NoTexts<R>(lines: seq<Line<R>>)
    requires NoItems(lines)
    ensures Texts(lines) == Texted(lines, [])
  {
    TextsAfterNoItems(lines, []);
    assert lines + [] == lines;
  }

  lemma KeptWithBlanks<R>(lines: seq<Line<R>>, blanks: seq<Line<R>>)
    requires AllBlank(blanks) && lines != [] && !lines[0].isBlank
    ensures Kept(lines + blanks) == Kept(lines)
  {
    var t := Synthetic(lines);
    var e := DropBlanks(t, 0, |t|);
    assert Kept(lines) == t[..e];
    assert Synthetic(lines + blanks) == [] + t[..e] + (t[e..] + Synthetic(blanks));
    TrimLinesUnique([], t[..e], t[e..] + Synthetic(blanks));
  }

  lemma FirstText<R>(l: Line<R>, t: seq<Line<R>>)
    ensures
      Texts([l] + t)
      == if l.isItem then Texted([], [Kept([l] + Texts(t).before)] + Texts(t).texts)
         else Texted([l] + Texts(t).before, Texts(t).texts)
  {
    assert ([l] + t)[1..] == t;
  }

  /** Lines before the first item go to the last item before them; blank ones do not change its text. */
  lemma {:induction false} TextsConcat<R>(a: seq<Line<R>>, b: seq<Line<R>>) returns (tail: seq<Line<R>>)
    requires Sane(a) && AllBlank(Texts(b).before)
    ensures AllBlank(tail) && Texts(a + b).before == Texts(a).before + tail
    ensures Texts(a + b).texts == Texts(a).texts + Texts(b).texts
  {
    if a == [] {
      assert a + b == b;
      tail := Texts(b).before;
    } else {
      var l, t := a[0], a[1..];
      var before, texts := Texts(t).before, Texts(t).texts;
      assert a == [l] + t;
      Regroup([l], t, b);
      tail := TextsConcat(t, b);
      FirstText(l, t);
      FirstText(l, t + b);
      Regroup([l], before, tail);
      if l.isItem {
        KeptWithBlanks([l] + before, tail);
        Regroup([Kept([l] + before)], texts, Texts(b).texts);
        tail := [];
      }
    }
  }

  /** Whatever comes before, the items stay items. */
  lemma {:induction false} TextsAfter<R>(a: seq<Line<R>>, b: seq<Line<R>>, x: seq<Line<R>>)
    requires x in Texts(b).texts
    ensures x in Texts(a + b).texts
  {
    if a == [] {
      assert a + b == b;
    } else {
      assert a + b == [a[0]] + (a[1..] + b);
      TextsAfter(a[1..], b, x);
      FirstText(a[0], a[1..] + b);
    }
  }

  lemma SyntheticCons<R>(l: Line<R>, rest: seq<Line<R>>)
    ensures Synthetic([l] + rest) == [l.(number := 0)] + Synthetic(rest)
    ensures Synthetic([l.(number := 0)] + Synthetic(rest)) == Synthetic([l] + rest)
  {
  }

  lemma {:induction false} TextsSynthetic<R>(lines: seq<Line<R>>)
    ensures Texts(Synthetic(lines)) == Texted(Synthetic(Texts(lines).before), Texts(lines).texts)
  {
    if lines != [] {
      TextsSynthetic(lines[1..]);
      assert [lines[0]] + lines[1..] == lines;
      FirstSynthetic(lines[0], lines[1..]);
    }
  }

  lemma FirstSynthetic<R>(l: Line<R>, t: seq<Line<R>>)
    requires Texts(Synthetic(t)) == Texted(Synthetic(Texts(t).before), Texts(t).texts)
    ensures Texts(Synthetic([l] + t)) == Texted(Synthetic(Texts([l] + t).before), Texts([l] + t).texts)
  {
    SyntheticCons(l, t);
    SyntheticCons(l, Texts(t).before);
    FirstText(l, t);
    FirstText(l.(number := 0), Synthetic(t));
  }

  lemma TextsBetween<R>(a: seq<Line<R>>, m: seq<Line<R>>, b: seq<Line<R>>)
    requires AllBlank(a) && AllBlank(b) && Sane(a) && Sane(m) && Sane(b)
    ensures Texts(a + (m + b)).texts == Texts(m).texts
  {
    TextsAfterNoItems(a, m + b);
    NoTexts(b);
    var tail := TextsConcat(m, b);
    assert Texts(m).texts + [] == Texts(m).texts;
  }

  lemma TextsTrimmed<R>(t: seq<Line<R>>)
    requires Sane(t)
    ensures Texts(TrimLines(t)).texts == Texts(t).texts
  {
    var before, after := TrimLinesParts(t);
    SaneParts(before, TrimLines(t), after);
    TextsBetween(before, TrimLines(t), after);
  }

  lemma SaneParts<R>(a: seq<Line<R>>, b: seq<Line<R>>, c: seq<Line<R>>)
    requires Sane(a + (b + c))
    ensures Sane(a) && Sane(b) && Sane(c)
  {
    var t := a + (b + c);
    assert forall i | 0 <= i < |a| :: a[i] == t[i];
    assert forall i | 0 <= i < |b| :: b[i] == t[|a| + i];
    assert forall i | 0 <= i < |c| :: c[i] == t[|a| + |b| + i];
  }

  lemma TextsKept<R>(lines: seq<Line<R>>)
    requires Sane(lines)
    ensures Texts(Kept(lines)).texts == Texts(lines).texts && Sane(Kept(lines))
  {
    TextsTrimmed(Synthetic(lines));
    TextsSynthetic(lines);
  }

  /** The text of one item, standing alone. */
  ghost predicate Proper<R>(text: seq<Line<R>>) {
    text != [] && Sane(text) && Kept(text) == text && Texts(text) == Texted([], [text])
  }

  lemma SaneConcat<R>(a: seq<Line<R>>, gap: seq<Line<R>>, b: seq<Line<R>>)
    requires Sane(a) && Sane(gap) && Sane(b)
    ensures Sane(a + gap) && Sane(a + gap + b)
  {
  }

  /** Appending an item adds exactly that item. */
  lemma AppendItem<R>(style: Style<R>, lines: seq<Line<R>>, text: seq<Line<R>>)
    requires Sane(lines) && Proper(text)
    ensures Texts(AppendLines(style, lines, text)).texts == Texts(lines).texts + [text]
    ensures Sane(AppendLines(style, lines, text))
  {
    TextsKept(lines);
    if Kept(lines) == [] {
      AppendNothing(style, lines, text);
      assert Texts(lines).texts == [] && [] + [text] == [text];
    } else {
      var gap := JoinedLines(style, lines, text);
      var kept := Kept(lines);
      NoTexts(gap);
      var _ := TextsConcat(kept, gap);
      SaneConcat(kept, gap, text);
      var _ := TextsConcat(kept + gap, text);
      assert Texts(kept).texts + [] == Texts(kept).texts;
    }
  }

  /** What parsing yields: items whose texts stand alone. */
  lemma {:induction false} ParsedIsProper<R>(lines: seq<Line<R>>, x: seq<Line<R>>)
    requires Sane(lines) && x in Texts(lines).texts
    ensures Proper(x)
    decreases |lines|
  {
    if lines != [] {
      var l, t := lines[0], lines[1..];
      assert lines == [l] + t;
      FirstText(l, t);
      if l.isItem && x == Kept([l] + Texts(t).before) {
        BeforeIsPlain(t);
        OwnTextIsProper(l, Texts(t).before);
      } else {
        ParsedIsProper(t, x);
      }
    }
  }

  lemma {:induction false} BeforeIsPlain<R>(lines: seq<Line<R>>)
    requires Sane(lines)
    ensures NoItems(Texts(lines).before) && Sane(Texts(lines).before)
  {
    if lines != [] {
      BeforeIsPlain(lines[1..]);
    }
  }

  lemma OwnTextShape<R>(l: Line<R>, rest: seq<Line<R>>) returns (tail: seq<Line<R>>)
    requires !l.isBlank && NoItems(rest) && Sane(rest)
    ensures Kept([l] + rest) == [l.(number := 0)] + tail && NoItems(tail) && Sane(tail)
  {
    var t := Synthetic([l] + rest);
    assert t[0] == l.(number := 0) && SkipBlanks(t, 0) == 0;
    tail := t[1..DropBlanks(t, 0, |t|)];
  }

  lemma OwnTextIsProper<R>(l: Line<R>, rest: seq<Line<R>>)
    requires l.isItem && !l.isBlank && NoItems(rest) && Sane(rest)
    ensures Proper(Kept([l] + rest))
  {
    var tail := OwnTextShape(l, rest);
    NoTexts(tail);
    FirstText(l.(number := 0), tail);
    KeptTwice([l] + rest);
  }

  lemma KeptTwice<R>(ls: seq<Line<R>>)
    ensures Kept(Kept(ls)) == Kept(ls)
  {
    var t := Kept(ls);
    KeptKeeps(ls);
    assert forall i | 0 <= i < |t| :: t[i] in Synthetic(ls);
    assert Synthetic(t) == t;
    TrimLinesKeeps(t);
  }

  ghost predicate SaneSubs<R>(subs: seq<Subsection<R>>) {
    forall j | 0 <= j < |subs| :: Sane(subs[j].lines)
  }

  ghost predicate ProperItems<R>(items: seq<Item<R>>) {
    forall i | 0 <= i < |items| :: Proper(items[i].lines)
  }

  lemma AddItemKeeps<R>(style: Style<R>, lines: seq<Line<R>>, item: Item<R>)
    requires Sane(lines) && Proper(item.lines)
    ensures Sane(AddItem(style, lines, item))
    ensures item.lines in Texts(AddItem(style, lines, item)).texts
    ensures forall x | x in Texts(lines).texts :: x in Texts(AddItem(style, lines, item)).texts
  {
    TextsAreItems(lines, item.lines);
    AppendItem(style, lines, item.lines);
  }

  lemma {:induction false} AddItemsKeep<R>(style: Style<R>, lines: seq<Line<R>>, items: seq<Item<R>>, x: seq<Line<R>>)
    requires Sane(lines) && ProperItems(items)
    ensures Sane(AddItems(style, lines, items))
    ensures x in Texts(lines).texts ==> x in Texts(AddItems(style, lines, items)).texts
    decreases |items|
  {
    if items != [] {
      AddItemKeeps(style, lines, items[0]);
      AddItemsKeep(style, AddItem(style, lines, items[0]), items[1..], x);
    }
  }

  lemma {:induction false} AddItemsDeliver<R>(style: Style<R>, lines: seq<Line<R>>, items: seq<Item<R>>, i: nat)
    requires Sane(lines) && ProperItems(items) && i < |items|
    ensures items[i].lines in Texts(AddItems(style, lines, items)).texts
    decreases |items|
  {
    var next := AddItem(style, lines, items[0]);
    AddItemKeeps(style, lines, items[0]);
    if i == 0 {
      AddItemsKeep(style, next, items[1..], items[0].lines);
    } else {
      AddItemsDeliver(style, next, items[1..], i - 1);
    }
  }

  /** The last subsection with the title has the item. */
  ghost predicate Holds<R>(subs: seq<Subsection<R>>, title: R, x: seq<Line<R>>) {
    var k := FindLast(subs, title);
    k < |subs| && x in Texts(subs[k].lines).texts
  }

  lemma AddBatchIsSane<R>(style: Style<R>, subs: seq<Subsection<R>>, b: Batch<R>)
    requires SaneSubs(subs) && ProperItems(b.items)
    ensures SaneSubs(AddBatch(style, subs, b))
  {
    var k := FindLast(subs, b.title);
    AddItemsKeep(style, if k < |subs| then subs[k].lines else [], b.items, []);
  }

  lemma AddBatchKeeps<R>(style: Style<R>, subs: seq<Subsection<R>>, b: Batch<R>, title: R, x: seq<Line<R>>)
    requires SaneSubs(subs) && ProperItems(b.items) && Holds(subs, title, x)
    ensures Holds(AddBatch(style, subs, b), title, x)
  {
    var k := FindLast(subs, b.title);
    AddItemsKeep(style, if k < |subs| then subs[k].lines else [], b.items, x);
    LastStays(subs, k, AddBatch(style, subs, b), title);
  }

  /** The last subsection with a title stays the last, unless its lines change in place. */
  lemma LastStays<R>(subs: seq<Subsection<R>>, k: nat, next: seq<Subsection<R>>, title: R)
    requires FindLast(subs, title) < |subs| <= |next| && k <= |subs|
    requires forall j | 0 <= j < |subs| && j != k :: next[j] == subs[j]
    requires k < |subs| ==> |next| == |subs| && next[k].title == subs[k].title
    requires forall j | |subs| <= j < |next| :: next[j].title != title
    ensures FindLast(next, title) == FindLast(subs, title)
  {
  }

  lemma LastOfBatch<R>(style: Style<R>, subs: seq<Subsection<R>>, b: Batch<R>)
    ensures
      var k, next := FindLast(subs, b.title), AddBatch(style, subs, b);
      && FindLast(next, b.title) == k < |next|
      && next[k].lines == AddItems(style, if k < |subs| then subs[k].lines else [], b.items)
  {
  }

  lemma AddBatchDelivers<R>(style: Style<R>, subs: seq<Subsection<R>>, b: Batch<R>, i: nat)
    requires SaneSubs(subs) && ProperItems(b.items) && i < |b.items|
    ensures Holds(AddBatch(style, subs, b), b.title, b.items[i].lines)
  {
    var k := FindLast(subs, b.title);
    LastOfBatch(style, subs, b);
    AddItemsDeliver(style, if k < |subs| then subs[k].lines else [], b.items, i);
  }

  ghost predicate SaneSections<R>(sections: seq<ReleaseSection<R>>) {
    forall i | 0 <= i < |sections| :: SaneSubs(sections[i].body.subsections)
  }

  /** The unreleased section has the item under the title. */
  ghost predicate Delivered<R>(style: Style<R>, sections: seq<ReleaseSection<R>>, title: R, x: seq<Line<R>>) {
    var u := FindUnreleased(style, sections);
    u < |sections| && Holds(sections[u].body.subsections, title, x)
  }

  lemma DepositedSection<R>(style: Style<R>, sections: seq<ReleaseSection<R>>, b: Batch<R>)
    ensures
      var u, all, next := FindUnreleased(style, Ensured(style, sections)), Ensured(style, sections), Deposit(style, sections, b);
      && FindUnreleased(style, next) == u < |next|
      && next[u].body.subsections == AddBatch(style, all[u].body.subsections, b)
  {
    var all := Ensured(style, sections);
    var u := FindUnreleased(style, all);
    FindUnreleasedUpdate(style, all, u, WithSubsections(all[u], AddBatch(style, all[u].body.subsections, b)));
  }

  lemma DepositIsSane<R>(style: Style<R>, sections: seq<ReleaseSection<R>>, b: Batch<R>)
    requires SaneSections(sections) && ProperItems(b.items)
    ensures SaneSections(Ensured(style, sections)) && SaneSections(Deposit(style, sections, b))
  {
    var all := Ensured(style, sections);
    var u := FindUnreleased(style, all);
    assert SaneSections(all);
    AddBatchIsSane(style, all[u].body.subsections, b);
  }

  lemma DepositKeeps<R>(style: Style<R>, sections: seq<ReleaseSection<R>>, b: Batch<R>, title: R, x: seq<Line<R>>)
    requires SaneSections(sections) && ProperItems(b.items) && Delivered(style, sections, title, x)
    ensures Delivered(style, Deposit(style, sections, b), title, x)
  {
    var u := FindUnreleased(style, sections);
    DepositedSection(style, sections, b);
    AddBatchKeeps(style, sections[u].body.subsections, b, title, x);
  }

  lemma DepositDelivers<R>(style: Style<R>, sections: seq<ReleaseSection<R>>, b: Batch<R>, i: nat)
    requires SaneSections(sections) && ProperItems(b.items) && i < |b.items|
    ensures Delivered(style, Deposit(style, sections, b), b.title, b.items[i].lines)
  {
    var all := Ensured(style, sections);
    var u := FindUnreleased(style, all);
    DepositIsSane(style, sections, b);
    DepositedSection(style, sections, b);
    AddBatchDelivers(style, all[u].body.subsections, b, i);
  }

  ghost predicate ProperBatches<R>(batches: seq<Batch<R>>) {
    forall i | 0 <= i < |batches| :: ProperItems(batches[i].items)
  }

  lemma {:induction false} PlaceKeeps<R>(style: Style<R>, sections: seq<ReleaseSection<R>>, batches: seq<Batch<R>>, title: R, x: seq<Line<R>>)
    requires SaneSections(sections) && ProperBatches(batches)
    ensures SaneSections(Place(style, sections, batches))
    ensures Delivered(style, sections, title, x) ==> Delivered(style, Place(style, sections, batches), title, x)
    decreases |batches|
  {
    if batches != [] {
      assert ProperItems(batches[0].items);
      DepositIsSane(style, sections, batches[0]);
      if Delivered(style, sections, title, x) {
        DepositKeeps(style, sections, batches[0], title, x);
      }
      PlaceKeeps(style, Deposit(style, sections, batches[0]), batches[1..], title, x);
    }
  }

  lemma PlaceDelivers<R>(style: Style<R>, sections: seq<ReleaseSection<R>>, before: seq<Batch<R>>, b: Batch<R>, after: seq<Batch<R>>, i: nat)
    requires SaneSections(sections) && ProperBatches(before + ([b] + after)) && i < |b.items|
    ensures Delivered(style, Place(style, sections, before + ([b] + after)), b.title, b.items[i].lines)
  {
    ProperParts(before, b, after);
    var p := Place(style, sections, before);
    PlaceKeeps(style, sections, before, b.title, []);
    PlaceConcat(style, sections, before, [b] + after);
    DepositIsSane(style, p, b);
    DepositDelivers(style, p, b, i);
    PlaceKeeps(style, Deposit(style, p, b), after, b.title, b.items[i].lines);
    assert ([b] + after)[1..] == after;
  }

  lemma ProperParts<R>(before: seq<Batch<R>>, b: Batch<R>, after: seq<Batch<R>>)
    requires ProperBatches(before + ([b] + after))
    ensures ProperBatches(before) && ProperItems(b.items) && ProperBatches(after)
  {
    var all := before + ([b] + after);
    assert forall m | 0 <= m < |before| :: before[m] == all[m];
    assert b == all[|before|];
    assert forall m | 0 <= m < |after| :: after[m] == all[|before| + 1 + m];
  }

  lemma {:induction false} PromotableIsIn<R>(items: seq<Item<R>>, starts: set<nat>, i: nat)
    requires i < |Promotable(items, starts)|
    ensures HasItem(items, Promotable(items, starts)[i].lines)
  {
    if items != [] {
      if items[0].startLine in starts {
        if i > 0 {
          PromotableIsIn(items[1..], starts, i - 1);
        }
      } else {
        assert [] + Promotable(items[1..], starts) == Promotable(items[1..], starts);
        PromotableIsIn(items[1..], starts, i);
      }
    }
  }

  lemma PromotableIsProper<R>(lines: seq<Line<R>>, starts: set<nat>)
    requires Sane(lines)
    ensures ProperItems(Promotable(ItemsOf(lines), starts))
  {
    var items := Promotable(ItemsOf(lines), starts);
    forall i | 0 <= i < |items|
      ensures Proper(items[i].lines)
    {
      PromotableIsIn(ItemsOf(lines), starts, i);
      TextsAreItems(lines, items[i].lines);
      ParsedIsProper(lines, items[i].lines);
    }
  }

  lemma {:induction false} BatchesAreProper<R>(subs: seq<Subsection<R>>, starts: set<nat>)
    requires SaneSubs(subs)
    ensures ProperBatches(Batches(subs, starts))
  {
    if subs != [] {
      assert Sane(subs[0].lines);
      PromotableIsProper(subs[0].lines, starts);
      BatchesAreProper(subs[1..], starts);
    }
  }

  lemma {:induction false} AllBatchesAreProper<R>(style: Style<R>, sections: seq<ReleaseSection<R>>, starts: set<nat>)
    requires SaneSections(sections)
    ensures ProperBatches(AllBatches(style, sections, starts))
  {
    if sections != [] {
      BatchesAreProper(sections[0].body.subsections, starts);
      AllBatchesAreProper(style, sections[1..], starts);
    }
  }

  lemma {:induction false} RemainingIsSane<R>(lines: seq<Line<R>>, starts: set<nat>, dropping: bool)
    requires Sane(lines)
    ensures Sane(Remaining(lines, starts, dropping))
  {
    if lines != [] {
      RemainingIsSane(lines[1..], starts, if lines[0].isItem then lines[0].number in starts else dropping);
    }
  }

  lemma {:induction false} StripIsSane<R>(style: Style<R>, sections: seq<ReleaseSection<R>>, starts: set<nat>)
    requires SaneSections(sections)
    ensures SaneSections(StripAll(style, sections, starts))
  {
    if sections != [] {
      StripIsSane(style, sections[1..], starts);
      var subs := sections[0].body.subsections;
      forall j | 0 <= j < |subs|
        ensures Sane(Stripped(subs, starts)[j].lines)
      {
        RemainingIsSane(subs[j].lines, starts, false);
      }
      assert SaneSubs(StripSection(style, sections[0], starts).body.subsections);
    }
  }

  /** The batch of subsection j has its place among the batches. */
  lemma {:induction false} BatchIsIn<R>(subs: seq<Subsection<R>>, starts: set<nat>, j: nat, b: Batch<R>)
    returns (before: seq<Batch<R>>, after: seq<Batch<R>>)
    requires j < |subs| && b.items != []
    requires b.title == subs[j].title && b.items == Promotable(ItemsOf(subs[j].lines), starts)
    ensures Batches(subs, starts) == before + ([b] + after)
  {
    var items, rest := Promotable(ItemsOf(subs[0].lines), starts), Batches(subs[1..], starts);
    var first := if items == [] then [] else [Batch(subs[0].title, items)];
    if j > 0 {
      before, after := BatchIsIn(subs[1..], starts, j - 1, b);
      Regroup(first, before, [b] + after);
      before := first + before;
    } else {
      before, after := [], rest;
    }
  }

  lemma {:induction false} BatchIsInAll<R>(style: Style<R>, sections: seq<ReleaseSection<R>>, starts: set<nat>, o: nat, before: seq<Batch<R>>, rest: seq<Batch<R>>)
    returns (all: seq<Batch<R>>, after: seq<Batch<R>>)
    requires o < |sections| && SectionBatches(style, sections[o], starts) == before + rest
    ensures AllBatches(style, sections, starts) == all + (rest + after)
  {
    var own := SectionBatches(style, sections[0], starts);
    if o > 0 {
      all, after := BatchIsInAll(style, sections[1..], starts, o - 1, before, rest);
      Regroup(own, all, rest + after);
      all := own + all;
    } else {
      all, after := before, AllBatches(style, sections[1..], starts);
      Regroup(before, rest, after);
    }
  }

  /** Every promotable item of a released section is delivered under its own title. */
  lemma PromotedIsDelivered<R>(style: Style<R>, sections: seq<ReleaseSection<R>>, starts: set<nat>, o: nat, j: nat, i: nat)
    requires SaneSections(sections)
    requires o < |sections| && sections[o].heading.title != style.unreleased && j < |sections[o].body.subsections|
    requires i < |Promotable(ItemsOf(sections[o].body.subsections[j].lines), starts)|
    ensures
      var sub := sections[o].body.subsections[j];
      Delivered(style, Promoted(style, sections, starts), sub.title, Promotable(ItemsOf(sub.lines), starts)[i].lines)
  {
    var sub := sections[o].body.subsections[j];
    var b := Batch(sub.title, Promotable(ItemsOf(sub.lines), starts));
    var before, rest := BatchIsIn(sections[o].body.subsections, starts, j, b);
    var all, after := BatchIsInAll(style, sections, starts, o, before, [b] + rest);
    Regroup([b], rest, after);
    AllBatchesAreProper(style, sections, starts);
    StripIsSane(style, sections, starts);
    PlaceDelivers(style, StripAll(style, sections, starts), all, b, rest + after, i);
  }

  lemma AppendKeepsNew<R>(style: Style<R>, lines: seq<Line<R>>, source: seq<Line<R>>, x: seq<Line<R>>)
    requires Sane(lines) && Sane(source)
    ensures Sane(AppendLines(style, lines, source))
    ensures x in Texts(source).texts ==> x in Texts(AppendLines(style, lines, source)).texts
  {
    TextsKept(lines);
    TextsKept(source);
    if Kept(lines) == [] || Kept(source) == [] {
      AppendNothing(style, lines, source);
      assert Texts<R>([]).texts == [];
    } else {
      var gap := JoinedLines(style, lines, source);
      SaneConcat(Kept(lines), gap, Kept(source));
      if x in Texts(source).texts {
        TextsAfter(Kept(lines) + gap, Kept(source), x);
      }
    }
  }

  /** The subsection with the title has the item. */
  ghost predicate Found<R>(subs: seq<Subsection<R>>, title: R, x: seq<Line<R>>) {
    var k := FindTitle(subs, title);
    k < |subs| && x in Texts(subs[k].lines).texts
  }

  lemma FindTitleIs<R>(subs: seq<Subsection<R>>, title: R, k: nat)
    requires k <= |subs| && (k < |subs| ==> subs[k].title == title) && forall j | 0 <= j < k :: subs[j].title != title
    ensures FindTitle(subs, title) == k
  {
  }

  lemma MergeFinds<R>(style: Style<R>, done: seq<Subsection<R>>, sub: Subsection<R>, title: R, x: seq<Line<R>>)
    requires SaneSubs(done) && Sane(sub.lines)
    ensures SaneSubs(Merge(style, done, sub))
    ensures sub.title == title && x in Texts(sub.lines).texts ==> Found(Merge(style, done, sub), title, x)
    ensures sub.title != title && Found(done, title, x) ==> Found(Merge(style, done, sub), title, x)
  {
    var next, k := Merge(style, done, sub), FindTitle(done, sub.title);
    assert Texts<R>([]).texts == [];
    if k < |done| {
      AppendKeepsNew(style, done[k].lines, sub.lines, x);
    }
    if sub.title == title && x in Texts(sub.lines).texts {
      FindTitleIs(next, title, k);
    } else if sub.title != title && Found(done, title, x) {
      FindTitleIs(next, title, FindTitle(done, title));
    }
  }

  /** The last subsection with a title brings its items to the merged one, whole. */
  lemma {:induction false} MergeAllFinds<R>(style: Style<R>, done: seq<Subsection<R>>, subs: seq<Subsection<R>>, title: R, x: seq<Line<R>>)
    requires SaneSubs(done) && SaneSubs(subs)
    requires Holds(subs, title, x) || (Found(done, title, x) && forall j | 0 <= j < |subs| :: subs[j].title != title)
    ensures Found(MergeAll(style, done, subs), title, x)
    decreases |subs|
  {
    if subs != [] {
      assert Sane(subs[0].lines);
      MergeFinds(style, done, subs[0], title, x);
      LastOfRest(subs, title);
      MergeAllFinds(style, Merge(style, done, subs[0]), subs[1..], title, x);
    }
  }

  lemma LastOfRest<R>(subs: seq<Subsection<R>>, title: R)
    requires subs != []
    ensures
      var k, rest := FindLast(subs, title), FindLast(subs[1..], title);
      if rest < |subs| - 1 then k == rest + 1
      else (forall j | 0 <= j < |subs| - 1 :: subs[1..][j].title != title) && k == if subs[0].title == title then 0 else |subs|
  {
    var k, rest := FindLast(subs, title), FindLast(subs[1..], title);
    assert rest < |subs| - 1 ==> subs[rest + 1].title == title;
    assert 0 < k < |subs| ==> subs[1..][k - 1].title == title;
    assert forall j | 1 <= j < |subs| :: subs[j] == subs[1..][j - 1];
  }

  lemma OutlinedHolds<R>(subs: seq<Subsection<R>>, title: R, x: seq<Line<R>>)
    requires SaneSubs(subs) && Holds(subs, title, x)
    ensures SaneSubs(Outlined(subs)) && Holds(Outlined(subs), title, x)
  {
    var k := FindLast(subs, title);
    forall j | 0 <= j < |subs|
      ensures Sane(Outlined(subs)[j].lines) && Texts(Outlined(subs)[j].lines).texts == Texts(subs[j].lines).texts
    {
      TextsKept(subs[j].lines);
    }
    SameLast(subs, Outlined(subs), title);
  }

  lemma {:induction false} SameLast<R>(a: seq<Subsection<R>>, b: seq<Subsection<R>>, title: R)
    requires |a| == |b| && forall j | 0 <= j < |a| :: a[j].title == b[j].title
    ensures FindLast(a, title) == FindLast(b, title)
  {
    var k, l := FindLast(a, title), FindLast(b, title);
    assert k < |a| ==> b[k].title == title;
    assert l < |a| ==> a[l].title == title;
  }

  lemma SortFinds<R>(style: Style<R>, subs: seq<Subsection<R>>, title: R, x: seq<Line<R>>)
    requires DistinctTitles(subs) && Found(subs, title, x)
    ensures Found(Sorted(style, subs), title, x)
  {
    var k, sorted := FindTitle(subs, title), Sorted(style, subs);
    SortKeeps(style, subs);
    SortKeepsTitles(style, subs);
    assert subs[k] in multiset(sorted);
    var j :| 0 <= j < |sorted| && sorted[j] == subs[k];
    FindTitleIs(sorted, title, j);
  }

  /** A delivered item is still there, under the one subsection with its title, once the section is normalised. */
  lemma NormalizingFinds<R>(style: Style<R>, s: ReleaseSection<R>, title: R, x: seq<Line<R>>)
    requires SaneSubs(s.body.subsections) && Holds(s.body.subsections, title, x)
    ensures Found(Normalized(style, s).body.subsections, title, x)
  {
    var outlined := Outlined(s.body.subsections);
    OutlinedHolds(s.body.subsections, title, x);
    MergeAllFinds(style, [], outlined, title, x);
    MergeAllKeepsLines(style, [], outlined, title);
    SortFinds(style, MergeAll(style, [], outlined), title, x);
  }

  lemma {:induction false} ParsedBodyIsSane<R>(lines: seq<Line<R>>)
    requires Sane(lines)
    ensures Sane(ParseBody(lines).leading) && SaneSubs(ParseBody(lines).subsections)
  {
    if lines != [] {
      ParsedBodyIsSane(lines[1..]);
    }
  }

  lemma {:induction false} ParsedIsSane<R>(lines: seq<Line<R>>)
    requires Sane(lines)
    ensures Sane(ParseLines(lines).prefix) && SaneSections(ParseLines(lines).sections)
  {
    if lines != [] {
      ParsedIsSane(lines[1..]);
      ParsedBodyIsSane(ParseLines(lines[1..]).prefix);
    }
  }
}
