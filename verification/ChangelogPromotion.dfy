/** Moving promotable items from released sections to the unreleased one. */
module ChangelogPromotion {
  import opened ChangelogLines
  import opened ChangelogDocument
  import opened ChangelogNormalize
  import opened ChangelogItems

  /** The items that leave one subsection, under its title. */
  datatype Batch<R> = Batch(title: R, items: seq<Item<R>>)

  function FindLast<R(==)>(subs: seq<Subsection<R>>, title: R): (k: nat)
    ensures k <= |subs|
    ensures k < |subs| ==> subs[k].title == title
    ensures forall j | 0 <= j < |subs| && (k == |subs| || j > k) :: subs[j].title != title
  {
    if subs == [] then 0
    else if subs[|subs| - 1].title == title then |subs| - 1
    else
      var k := FindLast(subs[..|subs| - 1], title);
      if k == |subs| - 1 then |subs| else k
  }

  predicate HasItem<R(==)>(items: seq<Item<R>>, wanted: seq<Line<R>>) {
    items != [] && (items[0].lines == wanted || HasItem(items[1..], wanted))
  }

  function AddItem<R(==)>(style: Style<R>, lines: seq<Line<R>>, item: Item<R>): seq<Line<R>> {
    if HasItem(ItemsOf(lines), item.lines) then lines else AppendLines(style, lines, item.lines)
  }

  function AddItems<R(==)>(style: Style<R>, lines: seq<Line<R>>, items: seq<Item<R>>): seq<Line<R>>
    decreases |items|
  {
    if items == [] then lines else AddItems(style, AddItem(style, lines, items[0]), items[1..])
  }

  lemma NextAdded<R>(style: Style<R>, lines: seq<Line<R>>, items: seq<Item<R>>, i: nat)
    requires i < |items|
    ensures AddItems(style, lines, items[i..]) == AddItems(style, AddItem(style, lines, items[i]), items[i + 1..])
  {
    assert items[i..][1..] == items[i + 1..];
  }

  /** Into the last subsection with the title, or a new one at the end. */
  function AddBatch<R(==)>(style: Style<R>, subs: seq<Subsection<R>>, b: Batch<R>): seq<Subsection<R>> {
    var k := FindLast(subs, b.title);
    var all := if k < |subs| then subs else subs + [Subsection(b.title, [])];
    all[k := Subsection(b.title, AddItems(style, all[k].lines, b.items))]
  }

  function WithSubsections<R>(s: ReleaseSection<R>, subs: seq<Subsection<R>>): ReleaseSection<R> {
    s.(body := s.body.(subsections := subs))
  }

  function FindUnreleased<R(==)>(style: Style<R>, sections: seq<ReleaseSection<R>>): (k: nat)
    ensures k <= |sections|
    ensures k < |sections| ==> sections[k].heading.title == style.unreleased
    ensures forall j | 0 <= j < k :: sections[j].heading.title != style.unreleased
  {
    if sections == [] || sections[0].heading.title == style.unreleased then 0 else 1 + FindUnreleased(style, sections[1..])
  }

  /** The sections with an unreleased one among them. */
  function Ensured<R(==)>(style: Style<R>, sections: seq<ReleaseSection<R>>): (all: seq<ReleaseSection<R>>)
    ensures FindUnreleased(style, all) < |all|
  {
    if FindUnreleased(style, sections) < |sections| then sections
    else [ReleaseSection(UnreleasedHeading(style), Body([], []))] + sections
  }

  function Deposit<R(==)>(style: Style<R>, sections: seq<ReleaseSection<R>>, b: Batch<R>): seq<ReleaseSection<R>> {
    var all := Ensured(style, sections);
    var u := FindUnreleased(style, all);
    all[u := WithSubsections(all[u], AddBatch(style, all[u].body.subsections, b))]
  }

  function Place<R(==)>(style: Style<R>, sections: seq<ReleaseSection<R>>, batches: seq<Batch<R>>): seq<ReleaseSection<R>>
    decreases |batches|
  {
    if batches == [] then sections else Place(style, Deposit(style, sections, batches[0]), batches[1..])
  }

  /** What leaves the subsections, batch by batch. */
  function Batches<R(==)>(subs: seq<Subsection<R>>, starts: set<nat>): seq<Batch<R>> {
    if subs == [] then []
    else
      var items := Promotable(ItemsOf(subs[0].lines), starts);
      (if items == [] then [] else [Batch(subs[0].title, items)]) + Batches(subs[1..], starts)
  }

  function Strip<R(==)>(sub: Subsection<R>, starts: set<nat>): Subsection<R> {
    Subsection(sub.title, Remaining(sub.lines, starts, false))
  }

  function Stripped<R(==)>(subs: seq<Subsection<R>>, starts: set<nat>): (t: seq<Subsection<R>>)
    ensures |t| == |subs| && forall i | 0 <= i < |subs| :: t[i] == Strip(subs[i], starts)
  {
    seq(|subs|, i requires 0 <= i < |subs| => Strip(subs[i], starts))
  }

  function StripSection<R(==)>(style: Style<R>, s: ReleaseSection<R>, starts: set<nat>): ReleaseSection<R> {
    if s.heading.title == style.unreleased then s else WithSubsections(s, Stripped(s.body.subsections, starts))
  }

  function SectionBatches<R(==)>(style: Style<R>, s: ReleaseSection<R>, starts: set<nat>): seq<Batch<R>> {
    if s.heading.title == style.unreleased then [] else Batches(s.body.subsections, starts)
  }

  function StripAll<R(==)>(style: Style<R>, sections: seq<ReleaseSection<R>>, starts: set<nat>): seq<ReleaseSection<R>> {
    if sections == [] then [] else [StripSection(style, sections[0], starts)] + StripAll(style, sections[1..], starts)
  }

  function AllBatches<R(==)>(style: Style<R>, sections: seq<ReleaseSection<R>>, starts: set<nat>): seq<Batch<R>> {
    if sections == [] then [] else SectionBatches(style, sections[0], starts) + AllBatches(style, sections[1..], starts)
  }

  function CountItems<R(==)>(batches: seq<Batch<R>>): nat {
    if batches == [] then 0 else |batches[0].items| + CountItems(batches[1..])
  }

  /** Two passes: strip every released section, then deposit what was taken. */
  function Promoted<R(==)>(style: Style<R>, sections: seq<ReleaseSection<R>>, starts: set<nat>): seq<ReleaseSection<R>> {
    Place(style, StripAll(style, sections, starts), AllBatches(style, sections, starts))
  }

  /** How far a new unreleased section moves the others. */
  function Shift<R(==)>(style: Style<R>, sections: seq<ReleaseSection<R>>, batches: seq<Batch<R>>): nat {
    if batches != [] && FindUnreleased(style, sections) == |sections| then 1 else 0
  }

  lemma FindUnreleasedUpdate<R>(style: Style<R>, sections: seq<ReleaseSection<R>>, o: nat, x: ReleaseSection<R>)
    requires o < |sections|
    requires (sections[o].heading.title == style.unreleased) == (x.heading.title == style.unreleased)
    ensures FindUnreleased(style, sections[o := x]) == FindUnreleased(style, sections)
  {
    var updated, unreleased := sections[o := x], style.unreleased;
    assert forall j | 0 <= j < |sections| :: (updated[j].heading.title == unreleased) == (sections[j].heading.title == unreleased);
  }

  /** A deposit leaves released sections alone, but may move them. */
  lemma DepositReleased<R>(style: Style<R>, sections: seq<ReleaseSection<R>>, b: Batch<R>, o: nat, x: ReleaseSection<R>)
    requires o < |sections| && sections[o].heading.title != style.unreleased && x.heading.title != style.unreleased
    ensures
      var at := o + Shift(style, sections, [b]);
      var d := Deposit(style, sections, b);
      && FindUnreleased(style, d) < |d| == |sections| + Shift(style, sections, [b])
      && d[at] == sections[o]
      && Deposit(style, sections[o := x], b) == d[at := x]
  {
    FindUnreleasedUpdate(style, sections, o, x);
    var all := Ensured(style, sections);
    var at := o + Shift(style, sections, [b]);
    var u := FindUnreleased(style, all);
    assert Ensured(style, sections[o := x]) == all[at := x];
    FindUnreleasedUpdate(style, all, at, x);
    FindUnreleasedUpdate(style, all, u, WithSubsections(all[u], AddBatch(style, all[u].body.subsections, b)));
  }

  lemma {:induction false} PlaceReleased<R>(style: Style<R>, sections: seq<ReleaseSection<R>>, batches: seq<Batch<R>>, o: nat, x: ReleaseSection<R>)
    requires o < |sections| && sections[o].heading.title != style.unreleased && x.heading.title != style.unreleased
    ensures
      var at := o + Shift(style, sections, batches);
      var p := Place(style, sections, batches);
      && |p| == |sections| + Shift(style, sections, batches)
      && p[at] == sections[o]
      && Place(style, sections[o := x], batches) == p[at := x]
    decreases |batches|
  {
    if batches != [] {
      var b := batches[0];
      DepositReleased(style, sections, b, o, x);
      var at := o + Shift(style, sections, [b]);
      PlaceReleased(style, Deposit(style, sections, b), batches[1..], at, x);
    }
  }

  lemma {:induction false} PlaceSnoc<R>(style: Style<R>, sections: seq<ReleaseSection<R>>, batches: seq<Batch<R>>, b: Batch<R>)
    ensures Place(style, sections, batches + [b]) == Deposit(style, Place(style, sections, batches), b)
    decreases |batches|
  {
    if batches == [] {
      assert (batches + [b])[1..] == [];
    } else {
      assert (batches + [b])[1..] == batches[1..] + [b];
      PlaceSnoc(style, Deposit(style, sections, batches[0]), batches[1..], b);
    }
  }

  /** The first j subsections stripped. */
  function StrippedUpTo<R(==)>(subs: seq<Subsection<R>>, starts: set<nat>, j: nat): (t: seq<Subsection<R>>)
    requires j <= |subs|
    ensures |t| == |subs| && forall i | 0 <= i < |subs| :: t[i] == if i < j then Strip(subs[i], starts) else subs[i]
  {
    Stripped(subs[..j], starts) + subs[j..]
  }

  lemma NextBatch<R>(subs: seq<Subsection<R>>, starts: set<nat>, j: nat, done: seq<Batch<R>>)
    requires j < |subs|
    ensures
      var items := Promotable(ItemsOf(subs[j].lines), starts);
      done + Batches(subs[j..], starts) == (if items == [] then done else done + [Batch(subs[j].title, items)]) + Batches(subs[j + 1..], starts)
  {
    var items, rest := Promotable(ItemsOf(subs[j].lines), starts), Batches(subs[j + 1..], starts);
    assert subs[j..][1..] == subs[j + 1..];
    if items == [] {
      assert [] + rest == rest;
    } else {
      assert done + ([Batch(subs[j].title, items)] + rest) == done + [Batch(subs[j].title, items)] + rest;
    }
  }

  lemma NextStripped<R>(subs: seq<Subsection<R>>, starts: set<nat>, j: nat)
    requires j < |subs|
    ensures StrippedUpTo(subs, starts, j + 1) == StrippedUpTo(subs, starts, j)[j := Strip(subs[j], starts)]
    ensures Promotable(ItemsOf(subs[j].lines), starts) == [] ==> StrippedUpTo(subs, starts, j + 1) == StrippedUpTo(subs, starts, j)
  {
    if Promotable(ItemsOf(subs[j].lines), starts) == [] {
      NothingLeaves(subs[j].lines, starts);
    }
  }

  /** The section with its first j subsections stripped. */
  function Partly<R(==)>(s: ReleaseSection<R>, starts: set<nat>, j: nat): ReleaseSection<R>
    requires j <= |s.body.subsections|
  {
    WithSubsections(s, StrippedUpTo(s.body.subsections, starts, j))
  }

  /** Lines whose numbers tell items apart, if any item is to go. */
  ghost predicate Ready<R>(lines: seq<Line<R>>, starts: set<nat>) {
    Promotable(ItemsOf(lines), starts) == [] || InOrder(lines)
  }

  ghost predicate Released<R>(style: Style<R>, s: ReleaseSection<R>, starts: set<nat>) {
    s.heading.title != style.unreleased && forall i | 0 <= i < |s.body.subsections| :: Ready(s.body.subsections[i].lines, starts)
  }

  /** Numbered one by one, from wherever. */
  ghost predicate InOrder<R>(lines: seq<Line<R>>) {
    lines != [] ==> Consecutive(lines, lines[0].number)
  }

  /** The state of a visit to the section s at an index, after its first j subsections. */
  ghost predicate Visiting<R>(style: Style<R>, was: seq<ReleaseSection<R>>, at: nat, starts: set<nat>, j: nat, done: seq<Batch<R>>, sections: seq<ReleaseSection<R>>)
  {
    && at < |was| && Released(style, was[at], starts) && j <= |was[at].body.subsections|
    && done + Batches(was[at].body.subsections[j..], starts) == Batches(was[at].body.subsections, starts)
    && sections == Place(style, was[at := Partly(was[at], starts, j)], done)
  }

  lemma VisitedSection<R>(style: Style<R>, was: seq<ReleaseSection<R>>, at: nat, x: ReleaseSection<R>, done: seq<Batch<R>>, y: ReleaseSection<R>)
    requires at < |was| && was[at].heading.title != style.unreleased
    requires x.heading.title == y.heading.title == was[at].heading.title
    ensures
      var now := at + Shift(style, was, done);
      var sections := Place(style, was[at := x], done);
      && now < |sections|
      && sections[now] == x
      && sections[now := y] == Place(style, was[at := y], done)
  {
    FindUnreleasedUpdate(style, was, at, x);
    PlaceReleased(style, was[at := x], done, at, y);
    assert was[at := x][at := y] == was[at := y];
  }

  lemma VisitedUnreleased<R>(style: Style<R>, was: seq<ReleaseSection<R>>, at: nat, y: ReleaseSection<R>, done: seq<Batch<R>>)
    requires at < |was| && was[at].heading.title == y.heading.title
    ensures
      var sections := Place(style, was[at := y], done);
      FindUnreleased(style, sections) == |sections| <==> done == [] && FindUnreleased(style, was) == |was|
  {
    FindUnreleasedUpdate(style, was, at, y);
    PlaceHasUnreleased(style, was[at := y], done);
  }

  lemma {:induction false} PlaceHasUnreleased<R>(style: Style<R>, sections: seq<ReleaseSection<R>>, batches: seq<Batch<R>>)
    ensures
      var p := Place(style, sections, batches);
      FindUnreleased(style, p) == |p| <==> batches == [] && FindUnreleased(style, sections) == |sections|
    decreases |batches|
  {
    if batches != [] {
      var b := batches[0];
      var all := Ensured(style, sections);
      var u := FindUnreleased(style, all);
      FindUnreleasedUpdate(style, all, u, WithSubsections(all[u], AddBatch(style, all[u].body.subsections, b)));
      PlaceHasUnreleased(style, Deposit(style, sections, b), batches[1..]);
    }
  }

  function BatchAt<R(==)>(sections: seq<ReleaseSection<R>>, now: nat, j: nat, starts: set<nat>): Batch<R>
    requires now < |sections| && j < |sections[now].body.subsections|
  {
    var sub := sections[now].body.subsections[j];
    Batch(sub.title, Promotable(ItemsOf(sub.lines), starts))
  }

  /** What visiting one subsection makes of the sections. */
  function Withdraw<R(==)>(style: Style<R>, sections: seq<ReleaseSection<R>>, now: nat, j: nat, starts: set<nat>): seq<ReleaseSection<R>>
    requires now < |sections| && j < |sections[now].body.subsections|
  {
    var b, subs := BatchAt(sections, now, j, starts), sections[now].body.subsections;
    if b.items == [] then sections
    else Deposit(style, sections[now := WithSubsections(sections[now], subs[j := Strip(subs[j], starts)])], b)
  }

  lemma VisitStep<R>(style: Style<R>, was: seq<ReleaseSection<R>>, at: nat, starts: set<nat>, j: nat, done: seq<Batch<R>>, sections: seq<ReleaseSection<R>>)
    returns (more: seq<Batch<R>>)
    requires Visiting(style, was, at, starts, j, done, sections) && j < |was[at].body.subsections|
    ensures
      var now := at + Shift(style, was, done);
      && now < |sections| && sections[now] == Partly(was[at], starts, j)
      && |sections[now].body.subsections| == |was[at].body.subsections| && Ready(sections[now].body.subsections[j].lines, starts)
      && Visiting(style, was, at, starts, j + 1, more, Withdraw(style, sections, now, j, starts))
    ensures
      var now := at + Shift(style, was, done);
      var b := BatchAt(sections, now, j, starts);
      && CountItems(more) == CountItems(done) + |b.items|
      && at + Shift(style, was, more)
         == now + if b.items != [] && FindUnreleased(style, sections) == |sections| then 1 else 0
  {
    var subs, x, y := was[at].body.subsections, Partly(was[at], starts, j), Partly(was[at], starts, j + 1);
    var now := at + Shift(style, was, done);
    VisitedSection(style, was, at, x, done, y);
    VisitedUnreleased(style, was, at, x, done);
    NextBatch(subs, starts, j, done);
    NextStripped(subs, starts, j);
    var b := BatchAt(sections, now, j, starts);
    more := if b.items == [] then done else done + [b];
    assert Ready(subs[j].lines, starts);
    if b.items != [] {
      CountSnoc(done, b);
      PlaceSnoc(style, was[at := y], done, b);
    }
  }

  lemma StartVisit<R>(style: Style<R>, was: seq<ReleaseSection<R>>, at: nat, starts: set<nat>)
    requires at < |was| && Released(style, was[at], starts)
    ensures Visiting(style, was, at, starts, 0, [], was)
  {
    var subs := was[at].body.subsections;
    assert subs[0..] == subs && StrippedUpTo(subs, starts, 0) == subs;
    assert Partly(was[at], starts, 0) == was[at];
    assert was[at := was[at]] == was;
  }

  lemma EndVisit<R>(style: Style<R>, was: seq<ReleaseSection<R>>, at: nat, starts: set<nat>, done: seq<Batch<R>>, sections: seq<ReleaseSection<R>>)
    requires at < |was| && Visiting(style, was, at, starts, |was[at].body.subsections|, done, sections)
    ensures done == Batches(was[at].body.subsections, starts)
    ensures sections == Place(style, was[at := StripSection(style, was[at], starts)], done)
  {
    var subs := was[at].body.subsections;
    assert Batches(subs[|subs|..], starts) == [];
    assert StrippedUpTo(subs, starts, |subs|) == Stripped(subs, starts);
  }

  lemma {:induction false} CountSnoc<R>(batches: seq<Batch<R>>, b: Batch<R>)
    ensures CountItems(batches + [b]) == CountItems(batches) + |b.items|
  {
    if batches == [] {
      assert (batches + [b])[1..] == [];
    } else {
      assert (batches + [b])[1..] == batches[1..] + [b];
      CountSnoc(batches[1..], b);
    }
  }

  ghost predicate AllReady<R>(style: Style<R>, sections: seq<ReleaseSection<R>>, starts: set<nat>) {
    forall i | 0 <= i < |sections| && sections[i].heading.title != style.unreleased :: Released(style, sections[i], starts)
  }

  /** The first n sections stripped. */
  function StrippedSections<R(==)>(style: Style<R>, sections: seq<ReleaseSection<R>>, starts: set<nat>, n: nat): (t: seq<ReleaseSection<R>>)
    ensures |t| == |sections|
    ensures forall i | 0 <= i < |sections| :: t[i] == if i < n then StripSection(style, sections[i], starts) else sections[i]
  {
    seq(|sections|, i requires 0 <= i < |sections| => if i < n then StripSection(style, sections[i], starts) else sections[i])
  }

  /** The state of the run at index i: the first n sections are done, and the next visit is to section n, or once more to the one before. */
  ghost predicate Running<R>(style: Style<R>, was: seq<ReleaseSection<R>>, starts: set<nat>, n: nat, done: seq<Batch<R>>, sections: seq<ReleaseSection<R>>, i: nat) {
    && n <= |was|
    && done + AllBatches(style, was[n..], starts) == AllBatches(style, was, starts)
    && sections == Place(style, StrippedSections(style, was, starts, n), done)
    && n <= i + 1 - Shift(style, StrippedSections(style, was, starts, n), done) <= n + 1
    && i >= Shift(style, StrippedSections(style, was, starts, n), done)
  }

  lemma DepositSize<R>(style: Style<R>, sections: seq<ReleaseSection<R>>, b: Batch<R>)
    ensures
      var d := Deposit(style, sections, b);
      |d| == |sections| + Shift(style, sections, [b]) && FindUnreleased(style, d) < |d|
  {
    var all := Ensured(style, sections);
    var u := FindUnreleased(style, all);
    FindUnreleasedUpdate(style, all, u, WithSubsections(all[u], AddBatch(style, all[u].body.subsections, b)));
  }

  lemma {:induction false} PlaceSize<R>(style: Style<R>, sections: seq<ReleaseSection<R>>, batches: seq<Batch<R>>)
    ensures |Place(style, sections, batches)| == |sections| + Shift(style, sections, batches)
    decreases |batches|
  {
    if batches != [] {
      DepositSize(style, sections, batches[0]);
      PlaceSize(style, Deposit(style, sections, batches[0]), batches[1..]);
    }
  }

  lemma DepositHeading<R>(style: Style<R>, sections: seq<ReleaseSection<R>>, b: Batch<R>, o: nat)
    requires o < |sections|
    ensures
      var d, at := Deposit(style, sections, b), o + Shift(style, sections, [b]);
      at < |d| && d[at].heading == sections[o].heading
  {
    DepositSize(style, sections, b);
    var all := Ensured(style, sections);
    assert all[o + Shift(style, sections, [b])] == sections[o];
  }

  lemma {:induction false} PlaceHeading<R>(style: Style<R>, sections: seq<ReleaseSection<R>>, batches: seq<Batch<R>>, o: nat)
    requires o < |sections|
    ensures
      var p, at := Place(style, sections, batches), o + Shift(style, sections, batches);
      at < |p| && p[at].heading == sections[o].heading
    decreases |batches|
  {
    if batches != [] {
      var b := batches[0];
      var d, at := Deposit(style, sections, b), o + Shift(style, sections, [b]);
      DepositSize(style, sections, b);
      DepositHeading(style, sections, b, o);
      PlaceHeading(style, d, batches[1..], at);
    }
  }

  lemma {:induction false} PlaceConcat<R>(style: Style<R>, sections: seq<ReleaseSection<R>>, a: seq<Batch<R>>, b: seq<Batch<R>>)
    ensures Place(style, sections, a + b) == Place(style, Place(style, sections, a), b)
    decreases |a|
  {
    if a == [] {
      assert a + b == b;
    } else {
      assert (a + b)[1..] == a[1..] + b;
      PlaceConcat(style, Deposit(style, sections, a[0]), a[1..], b);
    }
  }

  lemma FindUnreleasedSame<R>(style: Style<R>, a: seq<ReleaseSection<R>>, b: seq<ReleaseSection<R>>)
    requires |a| == |b| && forall i | 0 <= i < |a| :: a[i].heading == b[i].heading
    ensures FindUnreleased(style, a) == FindUnreleased(style, b)
  {
  }

  lemma StartRun<R>(style: Style<R>, was: seq<ReleaseSection<R>>, starts: set<nat>)
    ensures Running(style, was, starts, 0, [], was, 0)
  {
    assert was[0..] == was && StrippedSections(style, was, starts, 0) == was;
  }

  lemma PlacedAt<R>(style: Style<R>, base: seq<ReleaseSection<R>>, done: seq<Batch<R>>, i: nat)
    requires Shift(style, base, done) <= i < |Place(style, base, done)|
    ensures
      var o, p := i - Shift(style, base, done), Place(style, base, done);
      && o < |base| && p[i].heading == base[o].heading
      && (base[o].heading.title != style.unreleased ==> p[i] == base[o])
  {
    PlaceSize(style, base, done);
    var o := i - Shift(style, base, done);
    PlaceHeading(style, base, done, o);
    if base[o].heading.title != style.unreleased {
      PlaceReleased(style, base, done, o, base[o]);
    }
  }

  /** A visit after a run of deposits adds its own after them. */
  lemma VisitPlaced<R>(style: Style<R>, base: seq<ReleaseSection<R>>, done: seq<Batch<R>>, i: nat, x: ReleaseSection<R>, taken: seq<Batch<R>>)
    requires Shift(style, base, done) <= i < |base| + Shift(style, base, done)
    requires base[i - Shift(style, base, done)].heading.title != style.unreleased && x.heading.title != style.unreleased
    ensures
      var p, o := Place(style, base, done), i - Shift(style, base, done);
      && i < |p|
      && Place(style, p[i := x], taken) == Place(style, base[o := x], done + taken)
      && i + Shift(style, p, taken) - Shift(style, base[o := x], done + taken) == o
  {
    var o := i - Shift(style, base, done);
    PlaceReleased(style, base, done, o, x);
    PlaceConcat(style, base[o := x], done, taken);
    FindUnreleasedUpdate(style, base, o, x);
    PlaceHasUnreleased(style, base, done);
  }

  lemma NextSectionBatches<R>(style: Style<R>, was: seq<ReleaseSection<R>>, starts: set<nat>, n: nat, done: seq<Batch<R>>)
    requires n < |was|
    ensures
      done + AllBatches(style, was[n..], starts)
      == done + SectionBatches(style, was[n], starts) + AllBatches(style, was[n + 1..], starts)
  {
    assert was[n..][1..] == was[n + 1..];
    var own, rest := SectionBatches(style, was[n], starts), AllBatches(style, was[n + 1..], starts);
    assert done + (own + rest) == done + own + rest;
  }

  lemma {:induction false} NoBatches<R>(subs: seq<Subsection<R>>, starts: set<nat>)
    requires forall j | 0 <= j < |subs| :: Promotable(ItemsOf(subs[j].lines), starts) == []
    ensures Batches(subs, starts) == []
  {
    if subs != [] {
      NoBatches(subs[1..], starts);
    }
  }

  lemma StrippedIsFinal<R>(style: Style<R>, s: ReleaseSection<R>, starts: set<nat>)
    requires s.heading.title != style.unreleased
    ensures
      var x := StripSection(style, s, starts);
      && Released(style, x, starts)
      && Batches(x.body.subsections, starts) == []
      && StripSection(style, x, starts) == x
  {
    var x := StripSection(style, s, starts);
    forall j | 0 <= j < |x.body.subsections|
      ensures Promotable(ItemsOf(x.body.subsections[j].lines), starts) == []
      ensures Strip(x.body.subsections[j], starts) == x.body.subsections[j]
    {
      RemainingIsFinal(s.body.subsections[j].lines, starts);
    }
    NoBatches(x.body.subsections, starts);
  }

  /** The visit to the next section. */
  lemma RunStep<R>(style: Style<R>, was: seq<ReleaseSection<R>>, starts: set<nat>, n: nat, done: seq<Batch<R>>, sections: seq<ReleaseSection<R>>, i: nat)
    returns (more: seq<Batch<R>>)
    requires n < |was| && AllReady(style, was, starts) && was[n].heading.title != style.unreleased
    requires Running(style, was, starts, n, done, sections, i)
    requires i == n + Shift(style, StrippedSections(style, was, starts, n), done)
    ensures i < |sections| && sections[i] == was[n]
    ensures
      var taken := Batches(was[n].body.subsections, starts);
      && more == done + taken
      && Running(style, was, starts, n + 1, more, Place(style, sections[i := StripSection(style, was[n], starts)], taken), i + 1)
  {
    var base, next := StrippedSections(style, was, starts, n), StrippedSections(style, was, starts, n + 1);
    var taken, x := Batches(was[n].body.subsections, starts), StripSection(style, was[n], starts);
    more := done + taken;
    PlaceSize(style, base, done);
    PlacedAt(style, base, done, i);
    VisitPlaced(style, base, done, i, x, taken);
    assert base[n := x] == next;
    NextSectionBatches(style, was, starts, n, done);
    FindUnreleasedUpdate(style, base, n, x);
  }

  /** A section met again after it moved: nothing more is there to take. */
  lemma RunAgain<R>(style: Style<R>, was: seq<ReleaseSection<R>>, starts: set<nat>, n: nat, done: seq<Batch<R>>, sections: seq<ReleaseSection<R>>, i: nat)
    requires 0 < n <= |was| && was[n - 1].heading.title != style.unreleased
    requires Running(style, was, starts, n, done, sections, i)
    requires i == n - 1 + Shift(style, StrippedSections(style, was, starts, n), done)
    ensures i < |sections| && Released(style, sections[i], starts)
    ensures StripSection(style, sections[i], starts) == sections[i] && Batches(sections[i].body.subsections, starts) == []
    ensures Running(style, was, starts, n, done, sections, i + 1)
  {
    var base := StrippedSections(style, was, starts, n);
    PlaceSize(style, base, done);
    PlacedAt(style, base, done, i);
    StrippedIsFinal(style, was[n - 1], starts);
  }

  lemma RunPast<R>(style: Style<R>, was: seq<ReleaseSection<R>>, starts: set<nat>, n: nat, done: seq<Batch<R>>, sections: seq<ReleaseSection<R>>, i: nat)
    returns (m: nat)
    requires Running(style, was, starts, n, done, sections, i)
    requires i < |sections| && sections[i].heading.title == style.unreleased
    ensures n <= m <= |was| && (m == n ==> i < n + Shift(style, StrippedSections(style, was, starts, n), done))
    ensures StrippedSections(style, was, starts, m) == StrippedSections(style, was, starts, n)
    ensures Running(style, was, starts, m, done, sections, i + 1)
  {
    var base := StrippedSections(style, was, starts, n);
    var shift := Shift(style, base, done);
    PlaceSize(style, base, done);
    PlacedAt(style, base, done, i);
    m := n;
    if i == n + shift {
      m := n + 1;
      NextSectionBatches(style, was, starts, n, done);
      assert done + [] == done;
      assert StrippedSections(style, was, starts, m) == base;
    }
  }

  /** Falls at every step: sections not yet done, and the one step back. */
  ghost function Remains<R>(style: Style<R>, was: seq<ReleaseSection<R>>, starts: set<nat>, n: nat, done: seq<Batch<R>>, i: nat): int {
    2 * (|was| - n) + n + Shift(style, StrippedSections(style, was, starts, n), done) - i
  }

  lemma {:induction false} CountConcat<R>(a: seq<Batch<R>>, b: seq<Batch<R>>)
    ensures CountItems(a + b) == CountItems(a) + CountItems(b)
  {
    if a == [] {
      assert a + b == b;
    } else {
      assert (a + b)[1..] == a[1..] + b;
      CountConcat(a[1..], b);
    }
  }

  lemma {:induction false} StripAllSections<R>(style: Style<R>, sections: seq<ReleaseSection<R>>, starts: set<nat>)
    ensures StripAll(style, sections, starts) == StrippedSections(style, sections, starts, |sections|)
  {
    if sections != [] {
      StripAllSections(style, sections[1..], starts);
    }
  }

  lemma EndRun<R>(style: Style<R>, was: seq<ReleaseSection<R>>, starts: set<nat>, n: nat, done: seq<Batch<R>>, sections: seq<ReleaseSection<R>>, i: nat)
    requires Running(style, was, starts, n, done, sections, i) && i >= |sections|
    ensures sections == Promoted(style, was, starts) && done == AllBatches(style, was, starts)
  {
    PlaceSize(style, StrippedSections(style, was, starts, n), done);
    assert n == |was|;
    assert AllBatches(style, was[n..], starts) == [];
    assert done + [] == done;
    StripAllSections(style, was, starts);
  }

  /** Parses the items, selects the promotable ones, and filters their lines out. */
  method TakeItems<R(==)>(lines: seq<Line<R>>, starts: set<nat>) returns (items: seq<Item<R>>, kept: seq<Line<R>>)
    requires Ready(lines, starts)
    ensures items == Promotable(ItemsOf(lines), starts) && kept == Remaining(lines, starts, false)
  {
    var parsed := ParseItems(lines);
    items := FilterItems(parsed, starts);
    if items == [] {
      NothingLeaves(lines, starts);
      return items, lines;
    }
    var numbers := LineRangeSet(items);
    kept := FilterLines(lines, numbers);
    FilterIsRemaining(lines, starts, if lines == [] then 0 else lines[0].number);
  }

  class Promotion<R(==)> {
    const style: Style<R>
    var sections: seq<ReleaseSection<R>>
    var promoted: nat

    constructor (style: Style<R>, sections: seq<ReleaseSection<R>>)
      ensures this.style == style && this.sections == sections && promoted == 0
    {
      this.style, this.sections, promoted := style, sections, 0;
    }

    /** Adds the items that the target does not have yet; all of them count as promoted. */
    method AddToTarget(b: Batch<R>)
      modifies this
      ensures sections == Deposit(style, old(sections), b) && promoted == old(promoted) + |b.items|
    {
      sections := Ensured(style, sections);
      var u := FindUnreleased(style, sections);
      var subs := sections[u].body.subsections;
      var k := FindLast(subs, b.title);
      if k == |subs| {
        subs := subs + [Subsection(b.title, [])];
      }
      var lines := subs[k].lines;
      ghost var want := AddItems(style, lines, b.items);
      assert b.items[0..] == b.items;
      for i := 0 to |b.items|
        invariant AddItems(style, lines, b.items[i..]) == want
        invariant promoted == old(promoted) + i && sections == Ensured(style, old(sections))
      {
        NextAdded(style, lines, b.items, i);
        if !HasItem(ItemsOf(lines), b.items[i].lines) {
          lines := AppendLines(style, lines, b.items[i].lines);
        }
        promoted := promoted + 1;
      }
      sections := sections[u := WithSubsections(sections[u], subs[k := Subsection(b.title, lines)])];
    }

    /** One subsection of a released section; the section moves when an unreleased one is put in front. */
    method VisitSubsection(now: nat, j: nat, starts: set<nat>) returns (next: nat)
      requires now < |sections| && j < |sections[now].body.subsections| && Ready(sections[now].body.subsections[j].lines, starts)
      modifies this
      ensures
        var b := BatchAt(old(sections), now, j, starts);
        && sections == Withdraw(style, old(sections), now, j, starts)
        && next == now + (if b.items != [] && FindUnreleased(style, old(sections)) == |old(sections)| then 1 else 0)
        && promoted == old(promoted) + |b.items|
    {
      var sub := sections[now].body.subsections[j];
      var items, kept := TakeItems(sub.lines, starts);
      if items == [] {
        return now;
      }
      var stripped := sections[now].body.subsections[j := Subsection(sub.title, kept)];
      next := if FindUnreleased(style, sections) == |sections| then now + 1 else now;
      sections := sections[now := WithSubsections(sections[now], stripped)];
      AddToTarget(Batch(sub.title, items));
    }

    method VisitNext(ghost was: seq<ReleaseSection<R>>, ghost at: nat, starts: set<nat>, j: nat, ghost done: seq<Batch<R>>, now: nat)
      returns (next: nat, ghost more: seq<Batch<R>>)
      requires Visiting(style, was, at, starts, j, done, sections) && j < |was[at].body.subsections|
      requires now == at + Shift(style, was, done)
      modifies this
      ensures Visiting(style, was, at, starts, j + 1, more, sections)
      ensures next == at + Shift(style, was, more)
      ensures promoted + CountItems(done) == old(promoted) + CountItems(more)
    {
      more := VisitStep(style, was, at, starts, j, done, sections);
      next := VisitSubsection(now, j, starts);
    }

    method VisitSection(at: nat, starts: set<nat>) returns (now: nat)
      requires at < |sections| && Released(style, sections[at], starts)
      modifies this
      ensures
        var was, batches := old(sections), Batches(old(sections[at].body.subsections), starts);
        && sections == Place(style, was[at := StripSection(style, was[at], starts)], batches)
        && now == at + Shift(style, was, batches)
        && promoted == old(promoted) + CountItems(batches)
    {
      now := at;
      ghost var was, done: seq<Batch<R>> := sections, [];
      var count := |sections[at].body.subsections|;
      StartVisit(style, was, at, starts);
      for j := 0 to count
        invariant Visiting(style, was, at, starts, j, done, sections)
        invariant now == at + Shift(style, was, done)
        invariant promoted == old(promoted) + CountItems(done)
      {
        now, done := VisitNext(was, at, starts, j, done, now);
      }
      EndVisit(style, was, at, starts, done, sections);
    }

    /** One section of the list being walked, as it stands now. */
    method VisitNextSection(ghost was: seq<ReleaseSection<R>>, starts: set<nat>, ghost n: nat, ghost done: seq<Batch<R>>, i: nat)
      returns (ghost m: nat, ghost more: seq<Batch<R>>)
      requires AllReady(style, was, starts) && Running(style, was, starts, n, done, sections, i) && i < |sections|
      modifies this
      ensures Running(style, was, starts, m, more, sections, i + 1)
      ensures promoted + CountItems(done) == old(promoted) + CountItems(more)
      ensures Remains(style, was, starts, m, more, i + 1) < Remains(style, was, starts, n, done, i)
    {
      ghost var base := StrippedSections(style, was, starts, n);
      PlaceSize(style, base, done);
      PlacedAt(style, base, done, i);
      if sections[i].heading.title == style.unreleased {
        m := RunPast(style, was, starts, n, done, sections, i);
        more := done;
        return;
      }
      if i == n + Shift(style, base, done) {
        m := n + 1;
        more := RunStep(style, was, starts, n, done, sections, i);
        CountConcat(done, Batches(was[n].body.subsections, starts));
      } else {
        m, more := n, done;
        RunAgain(style, was, starts, n, done, sections, i);
        assert sections[i := sections[i]] == sections;
      }
      var now := VisitSection(i, starts);
    }

    /** Walks the sections by index while a new one may be put in front of them. */
    method Run(starts: set<nat>)
      requires AllReady(style, sections, starts)
      modifies this
      ensures sections == Promoted(style, old(sections), starts)
      ensures promoted == old(promoted) + CountItems(AllBatches(style, old(sections), starts))
    {
      var i := 0;
      ghost var was, n: nat, done: seq<Batch<R>> := sections, 0, [];
      StartRun(style, was, starts);
      while i < |sections|
        invariant Running(style, was, starts, n, done, sections, i)
        invariant promoted == old(promoted) + CountItems(done)
        decreases Remains(style, was, starts, n, done, i)
      {
        n, done := VisitNextSection(was, starts, n, done, i);
        i := i + 1;
      }
      EndRun(style, was, starts, n, done, sections, i);
    }
  }
}
