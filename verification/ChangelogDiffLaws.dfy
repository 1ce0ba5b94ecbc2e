/** What the reader of a whole diff returns: lines of the new files that hold added list items. */
module DiffLaws {
  import opened ChangelogText
  import opened DiffPairing
  import opened DiffScan
  import opened DiffReader

  /** The parts of several files, one after the other. */
  function AllLines<T>(files: seq<FileDiff<T>>): seq<DiffLine<T>> {
    if files == [] then [] else FileLines(files[0]) + AllLines(files[1..])
  }

  function AddedInAll<T>(files: seq<FileDiff<T>>): seq<ListLine<T>> {
    if files == [] then [] else AddedInHunks(files[0].target.text, 0, files[0].hunks) + AddedInAll(files[1..])
  }

  function RemovedInAll<T>(files: seq<FileDiff<T>>): seq<ListLine<T>> {
    if files == [] then [] else RemovedInHunks(files[0].target.text, 0, files[0].hunks) + RemovedInAll(files[1..])
  }

  lemma Associate<A>(a: seq<A>, b: seq<A>, c: seq<A>)
    ensures a + (b + c) == a + b + c
  {
  }

  /** A diff of several files is read as exactly what they add and remove, in order. */
  lemma {:induction false} FilesScan<T>(none: T, s: Scan<T>, files: seq<FileDiff<T>>)
    requires forall i | 0 <= i < |files| :: GoodFile(none, files[i])
    ensures
      var t := ScanLines(none, s, AllLines(files));
      t.added == s.added + AddedInAll(files) && t.removed == s.removed + RemovedInAll(files)
    decreases |files|
  {
    if files == [] {
      assert s.added + [] == s.added && s.removed + [] == s.removed;
    } else {
      var f, rest := files[0], files[1..];
      FileScan(none, s, f);
      ScanConcat(none, s, FileLines(f), AllLines(rest));
      FilesScan(none, ScanLines(none, s, FileLines(f)), rest);
      Associate(s.added, AddedInHunks(f.target.text, 0, f.hunks), AddedInAll(rest));
      Associate(s.removed, RemovedInHunks(f.target.text, 0, f.hunks), RemovedInAll(rest));
    }
  }

  /** The changes that count as items have the text of one. */
  ghost predicate ItemsAreItems<T>(hunks: seq<Hunk<T>>, item: T -> bool) {
    forall h | 0 <= h < |hunks| :: forall i | 0 <= i < |hunks[h].changes| :: hunks[h].changes[i].isItem ==> item(hunks[h].changes[i].text)
  }

  ghost predicate AreAdded<T>(added: seq<ListLine<T>>, path: T, item: T -> bool) {
    forall i | 0 <= i < |added| :: added[i].path == path && item(added[i].text)
  }

  lemma {:induction false} ChangesAreAdded<T>(path: T, hunk: nat, changes: seq<DiffLine<T>>, n: nat, item: T -> bool)
    requires forall i | 0 <= i < |changes| :: changes[i].isItem ==> item(changes[i].text)
    ensures AreAdded(AddedIn(path, hunk, changes, n), path, item)
    decreases |changes|
  {
    if changes != [] {
      ChangesAreAdded(path, hunk, changes[1..], n + Advance(changes[0]), item);
    }
  }

  lemma {:induction false} HunksAreAdded<T>(path: T, hunk: nat, hunks: seq<Hunk<T>>, item: T -> bool)
    requires ItemsAreItems(hunks, item)
    ensures AreAdded(AddedInHunks(path, hunk, hunks), path, item)
    decreases |hunks|
  {
    if hunks != [] {
      ChangesAreAdded(path, hunk, hunks[0].changes, hunks[0].header.number, item);
      HunksAreAdded(path, hunk + 1, hunks[1..], item);
    }
  }

  /** The line is an item, and stands where its number says in the new file of its path. */
  ghost predicate IsAddedItem<T(!new)>(l: ListLine<T>, contents: map<T, seq<T>>, item: T -> bool) {
    l.path in contents && InPlace(l, contents[l.path]) && item(l.text)
  }

  /** The file's part of the diff fits its new content. */
  ghost predicate FileFits<T(!new)>(f: FileDiff<T>, contents: map<T, seq<T>>, item: T -> bool) {
    f.target.text in contents && HunksFit(f.hunks, contents[f.target.text]) && ItemsAreItems(f.hunks, item)
  }

  lemma {:induction false} AllAreAddedItems<T(!new)>(files: seq<FileDiff<T>>, contents: map<T, seq<T>>, item: T -> bool)
    requires forall i | 0 <= i < |files| :: FileFits(files[i], contents, item)
    ensures forall k | 0 <= k < |AddedInAll(files)| :: IsAddedItem(AddedInAll(files)[k], contents, item)
  {
    if files != [] {
      var f := files[0];
      assert FileFits(f, contents, item);
      NumbersAreRight(f.target.text, 0, f.hunks, contents[f.target.text]);
      HunksAreAdded(f.target.text, 0, f.hunks, item);
      AllAreAddedItems(files[1..], contents, item);
    }
  }

  /** A number returned is that of a candidate of the path. */
  lemma {:induction false} LinesAreCandidates<P, H>(candidates: seq<Candidate<P, H>>, paired: seq<bool>, gone: seq<nat>, n: nat, path: P, line: nat) returns (k: nat)
    requires n <= |candidates| == |paired| == |gone| && line in LinesFor(candidates, paired, gone, n, path)
    ensures k < n && candidates[k].path == path && candidates[k].line == line
    ensures Returned(Hunks(candidates), paired, k, gone[k])
  {
    if line in LinesFor(candidates, paired, gone, n - 1, path) {
      k := LinesAreCandidates(candidates, paired, gone, n - 1, path, line);
    } else {
      k := n - 1;
    }
  }

  ghost predicate IsLineOf(added: seq<ListLine<string>>, path: string, line: nat) {
    exists k :: 0 <= k < |added| && added[k].path == path && added[k].line == line
  }

  lemma {:induction false} PromotableIsAdded(added: seq<ListLine<string>>, removed: seq<ListLine<string>>, path: string, line: nat)
    requires line in PromotableFrom(added, removed, path)
    ensures IsLineOf(added, path, line)
  {
    var a, r := KeysOf(added), KeysOf(removed);
    var candidates := CandidatesOf(added);
    var gone := GoneFor(Hunks(candidates), Hunks(CandidatesOf(removed)), PairedFlags(r, a));
    var k := LinesAreCandidates(candidates, PairedFlags(a, r), gone, |candidates|, path, line);
    assert added[k].path == path && added[k].line == line;
  }

  lemma {:induction false} ReadFromStart<T>(none: T, files: seq<FileDiff<T>>)
    requires forall i | 0 <= i < |files| :: GoodFile(none, files[i])
    ensures ScanLines(none, Scan(none, -1, 0, [], []), AllLines(files)).added == AddedInAll(files)
    ensures ScanLines(none, Scan(none, -1, 0, [], []), AllLines(files)).removed == RemovedInAll(files)
  {
    FilesScan(none, Scan(none, -1, 0, [], []), files);
    assert [] + AddedInAll(files) == AddedInAll(files) && [] + RemovedInAll(files) == RemovedInAll(files);
  }

  /** One of the added lines has this path, this number and this text. */
  ghost predicate ListsText(added: seq<ListLine<string>>, path: string, line: nat, text: string) {
    exists k :: 0 <= k < |added| && added[k].path == path && added[k].line == line && added[k].text == text
  }

  lemma {:induction false} LineIsItem(files: seq<FileDiff<string>>, contents: map<string, seq<string>>, item: string -> bool, path: string, line: nat)
    requires forall i | 0 <= i < |files| :: FileFits(files[i], contents, item)
    requires IsLineOf(AddedInAll(files), path, line)
    ensures path in contents && 1 <= line <= |contents[path]| && item(contents[path][line - 1])
    ensures ListsText(AddedInAll(files), path, line, contents[path][line - 1])
  {
    var added := AddedInAll(files);
    var k :| 0 <= k < |added| && added[k].path == path && added[k].line == line;
    AllAreAddedItems(files, contents, item);
    assert IsAddedItem(added[k], contents, item);
  }

  /** Every number returned for a path of a diff that fits the new files is the line of a list item there, whose very text the diff adds at that line. */
  lemma {:induction false} NumbersAreAddedItems(diffText: string, files: seq<FileDiff<string>>, contents: map<string, seq<string>>, path: string, line: nat)
    requires DiffLines(diffText) == AllLines(files)
    requires forall i | 0 <= i < |files| :: GoodFile("", files[i]) && FileFits(files[i], contents, IsListItem)
    requires
      var s := ScanLines("", Scan("", -1, 0, [], []), DiffLines(diffText));
      line in PromotableFrom(s.added, s.removed, path)
    ensures path in contents && 1 <= line <= |contents[path]| && IsListItem(contents[path][line - 1])
    ensures ListsText(AddedInAll(files), path, line, contents[path][line - 1])
  {
    var s := ScanLines("", Scan("", -1, 0, [], []), AllLines(files));
    ReadFromStart("", files);
    PromotableIsAdded(s.added, s.removed, path, line);
    LineIsItem(files, contents, IsListItem, path, line);
  }
}
