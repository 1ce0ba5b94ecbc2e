/** List items of a subsection, and removing some of them. */
module ChangelogItems {
  import opened ChangelogLines

  /** An item's first line and the lines up to the next item. */
  datatype Group<R> = Group(first: Line<R>, rest: seq<Line<R>>)

  datatype Grouped<R> = Grouped(before: seq<Line<R>>, groups: seq<Group<R>>)

  datatype Item<R> = Item(startLine: nat, endLine: nat, lines: seq<Line<R>>)

  function Members<R>(g: Group<R>): seq<Line<R>> {
    [g.first] + g.rest
  }

  /** A line joins the lines before the first item of the rest, or makes them its own. */
  function Groups<R(==)>(lines: seq<Line<R>>): Grouped<R> {
    if lines == [] then Grouped([], [])
    else
      var rest := Groups(lines[1..]);
      if lines[0].isItem then Grouped([], [Group(lines[0], rest.before)] + rest.groups)
      else Grouped([lines[0]] + rest.before, rest.groups)
  }

  function ItemOf<R(==)>(g: Group<R>): Item<R> {
    var members := Members(g);
    Item(g.first.number, members[|members| - 1].number, Kept(members))
  }

  function Items<R(==)>(groups: seq<Group<R>>): (items: seq<Item<R>>) {
    if groups == [] then [] else [ItemOf(groups[0])] + Items(groups[1..])
  }

  function ItemsOf<R(==)>(lines: seq<Line<R>>): seq<Item<R>> {
    Items(Groups(lines).groups)
  }

  method SkipToItem<R(==)>(lines: seq<Line<R>>, start: nat) returns (index: nat)
    requires start <= |lines|
    ensures start <= index <= |lines|
    ensures Groups(lines[start..]) == Grouped(lines[start..index], Groups(lines[index..]).groups)
  {
    index := start;
    ghost var passed: seq<Line<R>> := [];
    while index < |lines| && !lines[index].isItem
      invariant start <= index <= |lines| && passed == lines[start..index]
      invariant passed + Groups(lines[index..]).before == Groups(lines[start..]).before
      invariant Groups(lines[start..]).groups == Groups(lines[index..]).groups
    {
      assert lines[index..][1..] == lines[index + 1..];
      ghost var before := Groups(lines[index + 1..]).before;
      assert passed + [lines[index]] + before == passed + ([lines[index]] + before);
      passed := passed + [lines[index]];
      index := index + 1;
    }
  }

  method CollectItem<R(==)>(lines: seq<Line<R>>, start: nat) returns (item: Item<R>, index: nat)
    requires start < |lines| && lines[start].isItem
    ensures start < index <= |lines|
    ensures ItemsOf(lines[start..]) == [item] + ItemsOf(lines[index..])
  {
    index := SkipToItem(lines, start + 1);
    FirstItem(lines, start, index);
    var own := lines[start..index];
    var text := TrimBlankLines(Synthetic(own));
    item := Item(own[0].number, own[|own| - 1].number, text);
  }

  lemma FirstItem<R>(lines: seq<Line<R>>, start: nat, index: nat)
    requires start < index <= |lines| && lines[start].isItem
    requires Groups(lines[start + 1..]) == Grouped(lines[start + 1..index], Groups(lines[index..]).groups)
    ensures
      var own := lines[start..index];
      ItemsOf(lines[start..]) == [Item(own[0].number, own[|own| - 1].number, Kept(own))] + ItemsOf(lines[index..])
  {
    var first, rest := Group(lines[start], lines[start + 1..index]), Groups(lines[index..]).groups;
    assert lines[start..][1..] == lines[start + 1..];
    assert lines[start..index] == Members(first);
    assert ([first] + rest)[1..] == rest;
  }

  method ParseItems<R(==)>(lines: seq<Line<R>>) returns (items: seq<Item<R>>)
    ensures items == ItemsOf(lines)
  {
    items := [];
    var index := 0;
    assert lines[0..] == lines;
    while index < |lines|
      invariant 0 <= index <= |lines|
      invariant items + ItemsOf(lines[index..]) == ItemsOf(lines)
    {
      if !lines[index].isItem {
        assert lines[index..][1..] == lines[index + 1..];
        index := index + 1;
        continue;
      }
      var item, next := CollectItem(lines, index);
      assert items + [item] + ItemsOf(lines[next..]) == items + ([item] + ItemsOf(lines[next..]));
      items, index := items + [item], next;
    }
  }

  /** The items whose first line is one of these. */
  function Promotable<R(==)>(items: seq<Item<R>>, starts: set<nat>): seq<Item<R>> {
    if items == [] then []
    else (if items[0].startLine in starts then [items[0]] else []) + Promotable(items[1..], starts)
  }

  method FilterItems<R(==)>(items: seq<Item<R>>, starts: set<nat>) returns (selected: seq<Item<R>>)
    ensures selected == Promotable(items, starts)
  {
    selected := [];
    assert items[0..] == items;
    for i := 0 to |items|
      invariant selected + Promotable(items[i..], starts) == Promotable(items, starts)
    {
      assert items[i..][1..] == items[i + 1..];
      if items[i].startLine in starts {
        selected := selected + [items[i]];
      }
    }
  }

  function Range(lo: nat, hi: nat): (r: set<nat>)
    ensures forall n :: n in r <==> lo <= n < hi
  {
    if hi <= lo then {} else Range(lo, hi - 1) + {hi - 1}
  }

  function LineNumbers<R(==)>(items: seq<Item<R>>): set<nat> {
    if items == [] then {}
    else Range(items[0].startLine, items[0].endLine + 1) + LineNumbers(items[1..])
  }

  method LineRangeSet<R(==)>(items: seq<Item<R>>) returns (numbers: set<nat>)
    ensures numbers == LineNumbers(items)
  {
    numbers := {};
    assert items[0..] == items;
    for i := 0 to |items|
      invariant numbers + LineNumbers(items[i..]) == LineNumbers(items)
    {
      assert items[i..][1..] == items[i + 1..];
      ghost var before := numbers;
      var line := items[i].startLine;
      while line <= items[i].endLine
        invariant items[i].startLine <= line
        invariant line <= items[i].endLine + 1 || line == items[i].startLine
        invariant numbers == before + Range(items[i].startLine, line)
        decreases items[i].endLine + 1 - line
      {
        numbers := numbers + {line};
        line := line + 1;
      }
    }
  }

  function WithoutNumbers<R(==)>(lines: seq<Line<R>>, numbers: set<nat>): seq<Line<R>> {
    if lines == [] then []
    else (if lines[0].number in numbers then [] else [lines[0]]) + WithoutNumbers(lines[1..], numbers)
  }

  method FilterLines<R(==)>(lines: seq<Line<R>>, numbers: set<nat>) returns (kept: seq<Line<R>>)
    ensures kept == WithoutNumbers(lines, numbers)
  {
    kept := [];
    assert lines[0..] == lines;
    for i := 0 to |lines|
      invariant kept + WithoutNumbers(lines[i..], numbers) == WithoutNumbers(lines, numbers)
    {
      assert lines[i..][1..] == lines[i + 1..];
      if lines[i].number !in numbers {
        kept := kept + [lines[i]];
      }
    }
  }

  /** One pass: an item line decides for itself and for the lines up to the next item. */
  function Remaining<R(==)>(lines: seq<Line<R>>, starts: set<nat>, dropping: bool): seq<Line<R>> {
    if lines == [] then []
    else
      var drop := if lines[0].isItem then lines[0].number in starts else dropping;
      (if drop then [] else [lines[0]]) + Remaining(lines[1..], starts, drop)
  }

  function Flatten<R(==)>(groups: seq<Group<R>>): seq<Line<R>> {
    if groups == [] then [] else Members(groups[0]) + Flatten(groups[1..])
  }

  function Staying<R(==)>(groups: seq<Group<R>>, starts: set<nat>): seq<Group<R>> {
    if groups == [] then []
    else (if groups[0].first.number in starts then [] else [groups[0]]) + Staying(groups[1..], starts)
  }

  function Leaving<R(==)>(groups: seq<Group<R>>, starts: set<nat>): seq<Group<R>> {
    if groups == [] then []
    else (if groups[0].first.number in starts then [groups[0]] else []) + Leaving(groups[1..], starts)
  }

  /** Removing items leaves exactly the other items, and the lines before the first. */
  lemma {:induction false} RemainingGroups<R>(lines: seq<Line<R>>, starts: set<nat>, dropping: bool)
    ensures
      var g := Groups(lines);
      Groups(Remaining(lines, starts, dropping)) == Grouped(if dropping then [] else g.before, Staying(g.groups, starts))
  {
    if lines != [] {
      var l, t := lines[0], lines[1..];
      var drop := if l.isItem then l.number in starts else dropping;
      RemainingGroups(t, starts, drop);
      if !drop {
        assert ([l] + Remaining(t, starts, drop))[1..] == Remaining(t, starts, drop);
      } else {
        assert [] + Remaining(t, starts, drop) == Remaining(t, starts, drop);
      }
      if l.isItem {
        var first := Group(l, Groups(t).before);
        assert ([first] + Groups(t).groups)[1..] == Groups(t).groups;
      }
    }
  }

  lemma {:induction false} GroupsFlatten<R>(lines: seq<Line<R>>)
    ensures var g := Groups(lines); lines == g.before + Flatten(g.groups)
  {
    if lines != [] {
      var l, t := lines[0], lines[1..];
      GroupsFlatten(t);
      assert lines == [l] + t;
      if l.isItem {
        var first := Group(l, Groups(t).before);
        assert ([first] + Groups(t).groups)[1..] == Groups(t).groups;
      }
    }
  }

  ghost predicate Consecutive<R>(lines: seq<Line<R>>, from: nat) {
    forall i | 0 <= i < |lines| :: lines[i].number == from + i
  }

  lemma {:induction false} WithoutAppend<R>(a: seq<Line<R>>, b: seq<Line<R>>, numbers: set<nat>)
    ensures WithoutNumbers(a + b, numbers) == WithoutNumbers(a, numbers) + WithoutNumbers(b, numbers)
  {
    if a == [] {
      assert a + b == b;
    } else {
      assert (a + b)[1..] == a[1..] + b;
      WithoutAppend(a[1..], b, numbers);
    }
  }

  lemma {:induction false} WithoutAllOrNone<R>(lines: seq<Line<R>>, numbers: set<nat>, all: bool)
    requires forall i | 0 <= i < |lines| :: lines[i].number in numbers <==> all
    ensures WithoutNumbers(lines, numbers) == if all then [] else lines
  {
    if lines != [] {
      WithoutAllOrNone(lines[1..], numbers, all);
    }
  }

  lemma FirstNumbers<R>(groups: seq<Group<R>>, starts: set<nat>)
    requires groups != []
    ensures
      var item := ItemOf(groups[0]);
      LineNumbers(Promotable(Items(groups), starts))
      == (if item.startLine in starts then Range(item.startLine, item.endLine + 1) else {})
         + LineNumbers(Promotable(Items(groups[1..]), starts))
  {
    assert Items(groups)[1..] == Items(groups[1..]);
    var item, rest := ItemOf(groups[0]), Promotable(Items(groups[1..]), starts);
    assert ([item] + rest)[1..] == rest && [] + rest == rest;
  }

  lemma ConsecutiveParts<R>(a: seq<Line<R>>, b: seq<Line<R>>, from: nat)
    requires Consecutive(a + b, from)
    ensures Consecutive(a, from) && Consecutive(b, from + |a|)
  {
    assert forall i | 0 <= i < |a| :: (a + b)[i] == a[i];
    forall i | 0 <= i < |b|
      ensures b[i].number == from + |a| + i
    {
      assert b[i] == (a + b)[|a| + i];
    }
  }

  /** Line numbers of the items that leave. */
  function Leaves<R(==)>(groups: seq<Group<R>>, starts: set<nat>): set<nat> {
    LineNumbers(Promotable(Items(groups), starts))
  }

  lemma FirstLeaves<R>(groups: seq<Group<R>>, starts: set<nat>, from: nat, n: nat)
    requires groups != [] && Consecutive(Flatten(groups), from)
    ensures Consecutive(Members(groups[0]), from)
    ensures Consecutive(Flatten(groups[1..]), from + |Members(groups[0])|)
    ensures
      n in Leaves(groups, starts)
      <==> (from in starts && from <= n < from + |Members(groups[0])|) || n in Leaves(groups[1..], starts)
  {
    var g := Members(groups[0]);
    ConsecutiveParts(g, Flatten(groups[1..]), from);
    assert g[0].number == from && g[|g| - 1].number == from + |g| - 1;
    FirstNumbers(groups, starts);
  }

  lemma {:induction false} LeavesAfter<R>(groups: seq<Group<R>>, starts: set<nat>, from: nat, n: nat)
    requires Consecutive(Flatten(groups), from) && n in Leaves(groups, starts)
    ensures n >= from
    decreases |groups|
  {
    if groups != [] {
      FirstLeaves(groups, starts, from, n);
      if n in Leaves(groups[1..], starts) {
        LeavesAfter(groups[1..], starts, from + |Members(groups[0])|, n);
      }
    }
  }

  lemma FirstStays<R>(groups: seq<Group<R>>, starts: set<nat>)
    requires groups != []
    ensures
      Flatten(Staying(groups, starts))
      == (if groups[0].first.number in starts then [] else Members(groups[0])) + Flatten(Staying(groups[1..], starts))
    ensures
      Flatten(Leaving(groups, starts))
      == (if groups[0].first.number in starts then Members(groups[0]) else []) + Flatten(Leaving(groups[1..], starts))
  {
    var g, stay, leave := groups[0], Staying(groups[1..], starts), Leaving(groups[1..], starts);
    assert ([g] + stay)[1..] == stay && [] + stay == stay;
    assert ([g] + leave)[1..] == leave && [] + leave == leave;
  }

  /** Lines with the numbers of the items that leave are the lines of those items. */
  lemma {:induction false} RemovedNumbers<R>(groups: seq<Group<R>>, starts: set<nat>, from: nat, numbers: set<nat>)
    requires Consecutive(Flatten(groups), from)
    requires forall n | n >= from :: n in numbers <==> n in Leaves(groups, starts)
    ensures WithoutNumbers(Flatten(groups), numbers) == Flatten(Staying(groups, starts))
    decreases |groups|
  {
    if groups != [] {
      var g, rest, after := Members(groups[0]), groups[1..], from + |Members(groups[0])|;
      FirstLeaves(groups, starts, from, from);
      forall n | n >= after
        ensures n in numbers <==> n in Leaves(rest, starts)
      {
        FirstLeaves(groups, starts, from, n);
      }
      RemovedNumbers(rest, starts, after, numbers);
      forall n | from <= n < after
        ensures n in numbers <==> from in starts
      {
        FirstLeaves(groups, starts, from, n);
        if n in Leaves(rest, starts) {
          LeavesAfter(rest, starts, after, n);
        }
      }
      WithoutAppend(g, Flatten(rest), numbers);
      WithoutAllOrNone(g, numbers, from in starts);
      FirstStays(groups, starts);
      assert g[0].number == from;
    }
  }

  /** Filtering consecutively numbered lines by the ranges of the promotable items leaves what one pass leaves. */
  lemma FilterIsRemaining<R>(lines: seq<Line<R>>, starts: set<nat>, from: nat)
    requires Consecutive(lines, from)
    ensures WithoutNumbers(lines, LineNumbers(Promotable(ItemsOf(lines), starts))) == Remaining(lines, starts, false)
  {
    var g := Groups(lines);
    var numbers := Leaves(g.groups, starts);
    GroupsFlatten(lines);
    ConsecutiveParts(g.before, Flatten(g.groups), from);
    var after := from + |g.before|;
    RemovedNumbers(g.groups, starts, after, numbers);
    forall i | 0 <= i < |g.before|
      ensures g.before[i].number !in numbers
    {
      if g.before[i].number in numbers {
        LeavesAfter(g.groups, starts, after, g.before[i].number);
      }
    }
    WithoutAllOrNone(g.before, numbers, false);
    WithoutAppend(g.before, Flatten(g.groups), numbers);
    RemainingGroups(lines, starts, false);
    GroupsFlatten(Remaining(lines, starts, false));
  }

  /** No item that was to go is left. */
  lemma {:induction false} NoneStays<R>(groups: seq<Group<R>>, starts: set<nat>)
    ensures Promotable(Items(Staying(groups, starts)), starts) == []
  {
    if groups != [] {
      NoneStays(groups[1..], starts);
      var rest := Staying(groups[1..], starts);
      if groups[0].first.number in starts {
        assert [] + rest == rest;
      } else {
        assert ([groups[0]] + rest)[1..] == rest;
        assert Items([groups[0]] + rest)[1..] == Items(rest);
      }
    }
  }

  /** Nothing is lost: every line stays or leaves with its item. */
  lemma {:induction false} StayingAndLeaving<R>(groups: seq<Group<R>>, starts: set<nat>)
    ensures
      multiset(Flatten(groups)) == multiset(Flatten(Staying(groups, starts))) + multiset(Flatten(Leaving(groups, starts)))
  {
    if groups != [] {
      StayingAndLeaving(groups[1..], starts);
      FirstStays(groups, starts);
      var g, rest := Members(groups[0]), Flatten(groups[1..]);
      assert multiset(g + rest) == multiset(g) + multiset(rest);
    }
  }

  lemma {:induction false} AllStay<R>(groups: seq<Group<R>>, starts: set<nat>)
    requires Promotable(Items(groups), starts) == []
    ensures Staying(groups, starts) == groups
  {
    if groups != [] {
      assert Items(groups)[1..] == Items(groups[1..]);
      AllStay(groups[1..], starts);
    }
  }

  lemma NothingLeaves<R>(lines: seq<Line<R>>, starts: set<nat>)
    requires Promotable(ItemsOf(lines), starts) == []
    ensures Remaining(lines, starts, false) == lines
  {
    AllStay(Groups(lines).groups, starts);
    RemainingGroups(lines, starts, false);
    GroupsFlatten(lines);
    GroupsFlatten(Remaining(lines, starts, false));
  }

  /** What is left has nothing more to give. */
  lemma RemainingIsFinal<R>(lines: seq<Line<R>>, starts: set<nat>)
    ensures Promotable(ItemsOf(Remaining(lines, starts, false)), starts) == []
    ensures Remaining(Remaining(lines, starts, false), starts, false) == Remaining(lines, starts, false)
  {
    RemainingGroups(lines, starts, false);
    NoneStays(Groups(lines).groups, starts);
    NothingLeaves(Remaining(lines, starts, false), starts);
  }
}
