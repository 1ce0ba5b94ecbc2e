/** Payload never changes structure: what is written in the verb grammar reads back. */
module HashlineLaws {
  import opened Wrappers
  import opened Decimal
  import ChangelogText
  import opened HashlineParser
  import opened HashlineText

  lemma SkipIs(s: string, i: nat, k: nat, test: char -> bool)
    requires i <= k <= |s| && (forall j | i <= j < k :: test(s[j])) && (k < |s| ==> !test(s[k]))
    ensures Skip(s, i, test) == k
  {
  }

  /** Nothing at the start to skip. */
  lemma NoSpaces(s: string, i: nat)
    requires i < |s| && !IsSpace(s[i])
    ensures Spaces(s, i) == i
  {
    SkipIs(s, i, i, IsSpace);
  }

  lemma {:induction false} DropKeepsStart(s: string)
    requires s != "" && !IsSpace(s[0])
    ensures DropSpaces(s) != "" && DropSpaces(s)[0] == s[0]
    decreases |s|
  {
    if IsSpace(s[|s| - 1]) {
      DropKeepsStart(s[..|s| - 1]);
    }
  }

  /** A line that starts with something else is no header, no envelope marker, and no legacy header. */
  lemma PlainStart(s: string)
    requires s != "" && !IsSpace(s[0]) && s[0] != PILCROW && s[0] != SECTION && s[0] != '*'
    ensures IsPlain(Lex(s))
  {
    DropKeepsStart(s);
    var trimmed := DropSpaces(s);
    assert BEGIN[0] == '*' && END[0] == '*' && ABORT[0] == '*';
    SkipIs(s, 0, 0, c => c == PILCROW);
    assert HeaderTarget(s).None?;
  }

  lemma NotAt(s: string, word: string)
    requires s != "" && word != "" && s[0] != word[0]
    ensures !HasAt(s, 0, word)
  {
    assert |word| <= |s| ==> s[0..|word|][0] == s[0];
  }

  /** Whatever the row says, behind its marker it is a row and nothing else. */
  lemma RowReadsBack(row: string)
    ensures IsRowLine(Lex(['+'] + row)) && Lex(['+'] + row).row == row
  {
    var s := ['+'] + row;
    PlainStart(s);
    NoSpaces(s, 0);
    assert s[0] == '+' && s[1..] == row;
    NotAt(s, REPLACE);
    NotAt(s, DELETE);
    NotAt(s, INSERT);
  }

  // ----- Numerals

  lemma {:induction false} PrintedStarts(n: nat)
    requires n >= 1
    ensures PrintNat(n)[0] != '0'
  {
    if n >= 10 {
      PrintedStarts(n / 10);
    }
  }

  /** A printed number, standing in a line before something that is no digit. */
  lemma NumeralAt(s: string, i: nat, n: nat)
    requires n >= 1 && HasAt(s, i, PrintNat(n))
    requires i + |PrintNat(n)| < |s| ==> !IsDigit(s[i + |PrintNat(n)|])
    ensures
      var k := Digits(s, i);
      k == i + |PrintNat(n)| && IsNumeral(s, i, k) && DigitsValue(s[i..k]) == n && s[i..k] == PrintNat(n)
    ensures !IsSpace(s[i])
  {
    var p := PrintNat(n);
    var k := i + |p|;
    forall j | i <= j < k
      ensures IsDigit(s[j])
    {
      assert s[j] == s[i..k][j - i] == p[j - i];
    }
    SkipIs(s, i, k, IsDigit);
    PrintedStarts(n);
    PrintedValue(n);
    assert s[i] == s[i..k][0];
  }

  lemma HasAfter(before: string, word: string, after: string)
    ensures HasAt(before + (word + after), |before|, word)
  {
  }

  lemma Regroup(a: string, b: string, c: string)
    ensures a + (b + c) == a + b + c
  {
  }

  /** How a range is written: one line alone, or two with a separator between them. */
  datatype Form = Alone | Dots | Dash | Ellipsis

  function SeparatorText(form: Form): (sep: string)
    ensures form != Alone ==> sep != "" && !IsSpace(sep[0]) && !IsDigit(sep[0])
  {
    match form
    case Alone => ""
    case Dots => ".."
    case Dash => "-"
    case Ellipsis => "\U{2026}"
  }

  /** What follows a range on its line. */
  function RangeText(a: nat, b: nat, form: Form, tail: string): string {
    if form == Alone then " " + (PrintNat(a) + tail)
    else " " + (PrintNat(a) + (SeparatorText(form) + (PrintNat(b) + tail)))
  }

  function Tail(colon: bool): string {
    if colon then ":" else ""
  }

  /** The pieces of a line that holds a number are where they were put. */
  lemma NumberPieces(before: string, n: nat, tail: string) returns (i: nat, j: nat)
    ensures
      var s := before + (" " + (PrintNat(n) + tail));
      && i == |before| + 1 && j == i + |PrintNat(n)| && |s| == j + |tail|
      && s[|before|] == ' ' && s[j..] == tail && HasAt(s, i, PrintNat(n))
  {
    var p := PrintNat(n);
    var s := before + (" " + (p + tail));
    Regroup(before, " ", p + tail);
    HasAfter(before + " ", p, tail);
    Regroup(before + " ", p, tail);
    i, j := |before| + 1, |before| + 1 + |p|;
    assert s == before + " " + p + tail;
    assert s[|before|] == (before + " ")[|before|];
  }

  /** And so are those of one that holds a range. */
  lemma RangePieces(before: string, a: nat, sep: string, b: nat, tail: string) returns (i: nat, j: nat, k: nat)
    ensures
      var s := before + (" " + (PrintNat(a) + (sep + (PrintNat(b) + tail))));
      && i == |before| + 1 && j == i + |PrintNat(a)| && k == j + |sep| + |PrintNat(b)|
      && |s| == k + |tail| && s[|before|] == ' ' && s[k..] == tail
      && HasAt(s, i, PrintNat(a)) && HasAt(s, j, sep) && HasAt(s, j + |sep|, PrintNat(b))
      && s == before + " " + PrintNat(a) + sep + PrintNat(b) + tail
  {
    var pa, pb := PrintNat(a), PrintNat(b);
    var s := before + (" " + (pa + (sep + (pb + tail))));
    i, j := NumberPieces(before, a, sep + (pb + tail));
    Regroup(before, " ", pa + (sep + (pb + tail)));
    Regroup(before + " ", pa, sep + (pb + tail));
    HasAfter(before + " " + pa, sep, pb + tail);
    Regroup(before + " " + pa, sep, pb + tail);
    HasAfter(before + " " + pa + sep, pb, tail);
    Regroup(before + " " + pa + sep, pb, tail);
    k := j + |sep| + |pb|;
    assert s[k..] == tail;
  }

  lemma SeparatorIs(s: string, j: nat, form: Form)
    requires form != Alone && HasAt(s, j, SeparatorText(form))
    ensures Spaces(s, j) == j && Separator(s, j) == j + |SeparatorText(form)| && !IsDigit(s[j])
  {
    var sep := SeparatorText(form);
    assert s[j] == s[j..j + |sep|][0] == sep[0];
    NoSpaces(s, j);
    if form != Dots {
      NotDots(s, j);
    }
  }

  lemma FirstNumeral(s: string, h: nat, i: nat, j: nat, a: nat)
    requires a >= 1 && i == h + 1 && j == i + |PrintNat(a)| && j <= |s| && s[h] == ' '
    requires HasAt(s, i, PrintNat(a)) && (j < |s| ==> !IsDigit(s[j]))
    ensures Spaces(s, h) == i && Digits(s, i) == j && IsNumeral(s, i, j) && DigitsValue(s[i..j]) == a && s[i..j] == PrintNat(a)
  {
    NumeralAt(s, i, a);
    SkipIs(s, h, i, IsSpace);
  }

  lemma SecondNumeral(s: string, j: nat, k: nat, b: nat, colon: bool)
    requires b >= 1 && HasAt(s, j, PrintNat(b)) && k == j + |PrintNat(b)| && s[k..] == Tail(colon)
    ensures Spaces(s, j) == j && Digits(s, j) == k && IsNumeral(s, j, k) && DigitsValue(s[j..k]) == b
  {
    assert colon ==> s[k] == s[k..][0];
    NumeralAt(s, j, b);
    NoSpaces(s, j);
  }

  lemma RangeReadsAt(s: string, h: nat, i: nat, j: nat, l: nat, k: nat, a: nat, b: nat, form: Form, colon: bool)
    requires a >= 1 && b >= 1 && form != Alone
    requires i == h + 1 && j == i + |PrintNat(a)| && l == j + |SeparatorText(form)| && k == l + |PrintNat(b)| && k <= |s|
    requires s[h] == ' ' && s[k..] == Tail(colon)
    requires HasAt(s, i, PrintNat(a)) && HasAt(s, j, SeparatorText(form)) && HasAt(s, l, PrintNat(b))
    ensures ReadRange(s, h) == Some(Range(a, b, k)) && EndsAfter(s, k, colon)
  {
    SeparatorIs(s, j, form);
    FirstNumeral(s, h, i, j, a);
    SecondNumeral(s, l, k, b, colon);
    RangeIs(s, h, i, j, l, k, a, b);
    LineEnds(s, k, colon);
  }

  lemma NumberReadsAt(s: string, h: nat, i: nat, j: nat, a: nat, colon: bool)
    requires a >= 1 && i == h + 1 && j == i + |PrintNat(a)| && j <= |s|
    requires s[h] == ' ' && s[j..] == Tail(colon) && HasAt(s, i, PrintNat(a))
    ensures ReadRange(s, h) == Some(Range(a, a, j)) && EndsAfter(s, j, colon)
  {
    assert colon ==> s[j] == s[j..][0];
    FirstNumeral(s, h, i, j, a);
    LineEnds(s, j, colon);
    NoSeparator(s, j, colon);
  }

  lemma NoSeparator(s: string, j: nat, colon: bool)
    requires j <= |s| && s[j..] == Tail(colon)
    ensures Spaces(s, j) == j && Separator(s, j) == j
  {
    if colon {
      assert s[j] == s[j..][0];
      NoSpaces(s, j);
      NotDots(s, j);
    } else {
      SkipIs(s, j, j, IsSpace);
    }
  }

  lemma NotDots(s: string, j: nat)
    requires j < |s| && s[j] != '.'
    ensures !HasAt(s, j, "..")
  {
    var dots := "..";
    assert dots[0] == '.' && (j + 2 <= |s| ==> s[j..j + 2][0] == s[j]);
  }

  /** A written range is read, however it is written, and the line ends as it was ended. */
  lemma RangeReads(before: string, a: nat, b: nat, form: Form, colon: bool)
    requires a >= 1 && b >= 1 && (form == Alone ==> a == b)
    ensures
      var s := before + RangeText(a, b, form, Tail(colon));
      var r := ReadRange(s, |before|);
      r.Some? && r.value.a == a && r.value.b == b && EndsAfter(s, r.value.end, colon)
  {
    var s := before + RangeText(a, b, form, Tail(colon));
    if form == Alone {
      var i, j := NumberPieces(before, a, Tail(colon));
      NumberReadsAt(s, |before|, i, j, a, colon);
    } else {
      var i, j, k := RangePieces(before, a, SeparatorText(form), b, Tail(colon));
      RangeReadsAt(s, |before|, i, j, j + |SeparatorText(form)|, k, a, b, form, colon);
    }
  }

  lemma RangeIs(s: string, h: nat, i: nat, j: nat, l: nat, k: nat, a: nat, b: nat)
    requires h < i <= j < l <= k <= |s|
    requires Spaces(s, h) == i && Digits(s, i) == j && IsNumeral(s, i, j) && DigitsValue(s[i..j]) == a
    requires Spaces(s, j) == j && Separator(s, j) == l
    requires Spaces(s, l) == l && Digits(s, l) == k && IsNumeral(s, l, k) && DigitsValue(s[l..k]) == b
    ensures ReadRange(s, h) == Some(Range(a, b, k))
  {
  }

  lemma LineEnds(s: string, k: nat, colon: bool)
    requires k <= |s| && s[k..] == Tail(colon)
    ensures EndsAfter(s, k, colon)
    ensures EndsAfter(s, k, true)
  {
    if colon {
      assert s[k] == s[k..][0] == ':' && |s| == k + 1;
      NoSpaces(s, k);
      SkipIs(s, k + 1, k + 1, IsSpace);
    } else {
      SkipIs(s, k, k, IsSpace);
    }
  }

  // ----- Ops

  datatype Edit =
    | ReplaceLines(a: nat, b: nat, form: Form, colon: bool, rows: seq<string>)
    | DeleteLines(a: nat, b: nat, form: Form)
    | InsertBefore(n: nat, colon: bool, rows: seq<string>)
    | InsertAfter(n: nat, colon: bool, rows: seq<string>)
    | InsertAtHead(colon: bool, rows: seq<string>)
    | InsertAtTail(colon: bool, rows: seq<string>)

  predicate GoodEdit(e: Edit) {
    match e
    case ReplaceLines(a, b, form, _, _) => a >= 1 && b >= 1 && (form == Alone ==> a == b)
    case DeleteLines(a, b, form) => a >= 1 && b >= 1 && (form == Alone ==> a == b)
    case InsertBefore(n, _, _) => n >= 1
    case InsertAfter(n, _, _) => n >= 1
    case _ => true
  }

  function PlaceText(place: string, n: nat, colon: bool): string {
    " " + (place + (" " + (PrintNat(n) + Tail(colon))))
  }

  function EndText(end: string, colon: bool): string {
    " " + (end + Tail(colon))
  }

  function WriteOp(e: Edit): string {
    match e
    case ReplaceLines(a, b, form, colon, _) => REPLACE + RangeText(a, b, form, Tail(colon))
    case DeleteLines(a, b, form) => DELETE + RangeText(a, b, form, "")
    case InsertBefore(n, colon, _) => INSERT + PlaceText(BEFORE, n, colon)
    case InsertAfter(n, colon, _) => INSERT + PlaceText(AFTER, n, colon)
    case InsertAtHead(colon, _) => INSERT + EndText(HEAD, colon)
    case InsertAtTail(colon, _) => INSERT + EndText(TAIL, colon)
  }

  /** What the op means: its verb, its anchors, its lines, how many it deletes. */
  function OpMeaning(e: Edit): (Verb, Op<string>) {
    match e
    case ReplaceLines(a, b, _, _, _) => (Replace, RangeOp(a, b))
    case DeleteLines(a, b, _) => (Delete, RangeOp(a, b))
    case InsertBefore(n, _, _) => (Insert, Op([PrintNat(n)], [n], 0))
    case InsertAfter(n, _, _) => (Insert, Op([PrintNat(n)], [n], 0))
    case InsertAtHead(_, _) => (Insert, NO_OP)
    case InsertAtTail(_, _) => (Insert, NO_OP)
  }

  lemma WordStarts(word: string, rest: string)
    requires word != "" && !IsSpace(word[0]) && word[0] != PILCROW && word[0] != SECTION && word[0] != '*'
    ensures
      var s := word + rest;
      s != "" && s[0] == word[0] && Spaces(s, 0) == 0 && HasAt(s, 0, word) && IsPlain(Lex(s))
  {
    var s := word + rest;
    assert s[0] == word[0];
    NoSpaces(s, 0);
    PlainStart(s);
  }

  lemma RangeIsLexed(word: string, verb: Verb, a: nat, b: nat, form: Form, colon: bool)
    requires a >= 1 && b >= 1 && (form == Alone ==> a == b) && (colon ==> verb == Replace)
    ensures LexRange(word + RangeText(a, b, form, Tail(colon)), |word|, verb) == (verb, RangeOp(a, b))
  {
    var s := word + RangeText(a, b, form, Tail(colon));
    RangeReads(word, a, b, form, colon);
    assert EndsAfter(s, ReadRange(s, |word|).value.end, verb == Replace);
  }

  lemma ReplaceReadsBack(a: nat, b: nat, form: Form, colon: bool)
    requires a >= 1 && b >= 1 && (form == Alone ==> a == b)
    ensures var s := REPLACE + RangeText(a, b, form, Tail(colon)); LexVerb(s) == (Replace, RangeOp(a, b)) && IsPlain(Lex(s))
  {
    WordStarts(REPLACE, RangeText(a, b, form, Tail(colon)));
    RangeIsLexed(REPLACE, Replace, a, b, form, colon);
  }

  lemma DeleteReadsBack(a: nat, b: nat, form: Form)
    requires a >= 1 && b >= 1 && (form == Alone ==> a == b)
    ensures var s := DELETE + RangeText(a, b, form, ""); LexVerb(s) == (Delete, RangeOp(a, b)) && IsPlain(Lex(s))
  {
    var s := DELETE + RangeText(a, b, form, "");
    WordStarts(DELETE, RangeText(a, b, form, ""));
    NotAt(s, REPLACE);
    RangeIsLexed(DELETE, Delete, a, b, form, false);
  }

  predicate IsWord(word: string) {
    word != "" && forall i | 0 <= i < |word| :: 'a' <= word[i] <= 'z'
  }

  /** After a word comes a space and another word. */
  lemma NextWord(before: string, word: string, rest: string)
    requires IsWord(word)
    ensures
      var s, i := before + (" " + (word + rest)), |before|;
      && i + 1 + |word| <= |s| && Spaces(s, i) == i + 1 && HasAt(s, i + 1, word) && s == before + " " + word + rest
  {
    var s, i := before + (" " + (word + rest)), |before|;
    Regroup(before, " ", word + rest);
    HasAfter(before + " ", word, rest);
    Regroup(before + " ", word, rest);
    assert s[i] == (before + " ")[i] && s[i + 1] == word[0];
    SkipIs(s, i, i + 1, IsSpace);
  }

  lemma WordsDiffer(s: string, i: nat, word: string, other: string)
    requires HasAt(s, i, word) && word != "" && other != "" && word[0] != other[0]
    ensures !HasAt(s, i, other)
  {
    assert s[i] == s[i..i + |word|][0];
    assert i + |other| <= |s| ==> s[i..i + |other|][0] == s[i];
  }

  lemma AnchorIsLexed(before: string, n: nat, colon: bool)
    requires n >= 1
    ensures LexAnchor(before + (" " + (PrintNat(n) + Tail(colon))), |before|) == (Insert, Op([PrintNat(n)], [n], 0))
  {
    var s := before + (" " + (PrintNat(n) + Tail(colon)));
    var i, j := NumberPieces(before, n, Tail(colon));
    assert colon ==> s[j] == s[j..][0];
    FirstNumeral(s, |before|, i, j, n);
    LineEnds(s, j, colon);
  }

  lemma PlaceIsLexed(place: string, n: nat, colon: bool)
    requires n >= 1 && (place == BEFORE || place == AFTER)
    ensures LexInsert(INSERT + PlaceText(place, n, colon), |INSERT|) == (Insert, Op([PrintNat(n)], [n], 0))
  {
    var rest := " " + (PrintNat(n) + Tail(colon));
    var s := INSERT + PlaceText(place, n, colon);
    NextWord(INSERT, place, rest);
    if place == AFTER {
      WordsDiffer(s, |INSERT| + 1, AFTER, BEFORE);
    }
    AnchorIsLexed(INSERT + " " + place, n, colon);
  }

  lemma EndIsLexed(end: string, colon: bool)
    requires end == HEAD || end == TAIL
    ensures LexInsert(INSERT + EndText(end, colon), |INSERT|) == (Insert, NO_OP)
  {
    var s, i := INSERT + EndText(end, colon), |INSERT| + 1;
    NextWord(INSERT, end, Tail(colon));
    WordsDiffer(s, i, end, BEFORE);
    WordsDiffer(s, i, end, AFTER);
    if end == TAIL {
      WordsDiffer(s, i, TAIL, HEAD);
    }
    assert s[i + |end|..] == Tail(colon);
    LineEnds(s, i + |end|, colon);
  }

  lemma InsertIsVerb(rest: string)
    ensures var s := INSERT + rest; LexVerb(s) == LexInsert(s, |INSERT|) && IsPlain(Lex(s))
  {
    var s := INSERT + rest;
    WordStarts(INSERT, rest);
    NotAt(s, REPLACE);
    NotAt(s, DELETE);
  }

  /** A written op line is that op and nothing else. */
  lemma OpReadsBack(e: Edit)
    requires GoodEdit(e)
    ensures var l := Lex(WriteOp(e)); IsPlain(l) && (l.verb, l.verbOp) == OpMeaning(e)
  {
    match e {
      case ReplaceLines(a, b, form, colon, _) => ReplaceReadsBack(a, b, form, colon);
      case DeleteLines(a, b, form) => DeleteReadsBack(a, b, form);
      case InsertBefore(n, colon, _) =>
        InsertIsVerb(PlaceText(BEFORE, n, colon));
        PlaceIsLexed(BEFORE, n, colon);
      case InsertAfter(n, colon, _) =>
        InsertIsVerb(PlaceText(AFTER, n, colon));
        PlaceIsLexed(AFTER, n, colon);
      case InsertAtHead(colon, _) =>
        InsertIsVerb(EndText(HEAD, colon));
        EndIsLexed(HEAD, colon);
      case InsertAtTail(colon, _) =>
        InsertIsVerb(EndText(TAIL, colon));
        EndIsLexed(TAIL, colon);
    }
  }

  // ----- Whole scripts

  datatype Section = Section(path: string, tag: string, edits: seq<Edit>)

  predicate IsPathChar(c: char) {
    !IsSpace(c) && c != '#' && c != PILCROW
  }

  /** A path a header can carry, and a tag without white space, perhaps none. */
  predicate GoodTarget(path: string, tag: string) {
    && path != "" && (forall i | 0 <= i < |path| :: IsPathChar(path[i]))
    && forall i | 0 <= i < |tag| :: !IsSpace(tag[i])
  }

  function TagText(tag: string): string {
    if tag == "" then "" else "#" + tag
  }

  function WriteHeader(path: string, tag: string): string {
    [PILCROW] + (path + TagText(tag))
  }

  lemma HeaderPieces(path: string, tag: string) returns (k: nat)
    requires GoodTarget(path, tag)
    ensures
      var s := WriteHeader(path, tag);
      && k == 1 + |path| <= |s| && s[0] == PILCROW && s[1..k] == path && s[k..] == TagText(tag)
  {
    k := 1 + |path|;
    var s := WriteHeader(path, tag);
    Regroup([PILCROW], path, TagText(tag));
    HasAfter([PILCROW], path, TagText(tag));
    assert s == [PILCROW] + path + TagText(tag);
  }

  lemma PathIsRead(s: string, k: nat, path: string, tag: string)
    requires GoodTarget(path, tag) && k == 1 + |path| <= |s| && s[0] == PILCROW && s[1..k] == path && s[k..] == TagText(tag)
    ensures Skip(s, 0, c => c == PILCROW) == 1 && Spaces(s, 1) == 1
    ensures Skip(s, 1, c => !IsSpace(c) && c != '#' && c != PILCROW) == k
  {
    forall j | 1 <= j < k
      ensures IsPathChar(s[j])
    {
      assert s[j] == s[1..k][j - 1];
    }
    assert tag != "" ==> s[k] == s[k..][0] == '#';
    SkipIs(s, 0, 1, c => c == PILCROW);
    NoSpaces(s, 1);
    SkipIs(s, 1, k, c => !IsSpace(c) && c != '#' && c != PILCROW);
  }

  lemma TagIsRead(s: string, k: nat, tag: string)
    requires k <= |s| && s[k..] == TagText(tag) && forall i | 0 <= i < |tag| :: !IsSpace(tag[i])
    ensures tag == "" ==> k == |s|
    ensures tag != "" ==> k < |s| && s[k] == '#' && Skip(s, k + 1, c => !IsSpace(c)) == |s| > k + 1
    ensures Spaces(s, |s|) == |s|
  {
    if tag != "" {
      assert s[k] == s[k..][0] && |s| == k + 1 + |tag|;
      forall j | k < j < |s|
        ensures !IsSpace(s[j])
      {
        assert s[j] == s[k..][j - k] == tag[j - k - 1];
      }
      SkipIs(s, k + 1, |s|, c => !IsSpace(c));
    }
    SkipIs(s, |s|, |s|, IsSpace);
  }

  lemma TargetIsRead(path: string, tag: string)
    requires GoodTarget(path, tag)
    ensures HeaderTarget(WriteHeader(path, tag)) == Some(path)
  {
    var s := WriteHeader(path, tag);
    var k := HeaderPieces(path, tag);
    PathIsRead(s, k, path, tag);
    TagIsRead(s, k, tag);
  }

  lemma HeaderReadsBack(path: string, tag: string)
    requires GoodTarget(path, tag)
    ensures var l := Lex(WriteHeader(path, tag)); IsHeaderLine(l) && l.target == path
  {
    var s := WriteHeader(path, tag);
    TargetIsRead(path, tag);
    DropKeepsStart(s);
    assert BEGIN[0] == '*' && END[0] == '*' && ABORT[0] == '*';
  }

  function Rows(e: Edit): seq<string> {
    if e.DeleteLines? then [] else e.rows
  }

  function RowText(row: string): string {
    ['+'] + row
  }

  function WriteRows(rows: seq<string>): seq<string> {
    if rows == [] then [] else [RowText(rows[0])] + WriteRows(rows[1..])
  }

  function WriteEdits(edits: seq<Edit>): seq<string> {
    if edits == [] then [] else [WriteOp(edits[0])] + (WriteRows(Rows(edits[0])) + WriteEdits(edits[1..]))
  }

  function WriteSections(sections: seq<Section>): seq<string> {
    if sections == [] then []
    else [WriteHeader(sections[0].path, sections[0].tag)] + (WriteEdits(sections[0].edits) + WriteSections(sections[1..]))
  }

  function LexAll(lex: string -> Line<string>, lines: seq<string>): seq<Line<string>> {
    if lines == [] then [] else [lex(lines[0])] + LexAll(lex, lines[1..])
  }

  function LexedOps(lex: string -> Line<string>, edits: seq<Edit>): seq<WrittenOp<string>> {
    if edits == [] then [] else [WrittenOp(lex(WriteOp(edits[0])), LexAll(lex, WriteRows(Rows(edits[0]))))] + LexedOps(lex, edits[1..])
  }

  function LexedSections(lex: string -> Line<string>, sections: seq<Section>): seq<WrittenSection<string>> {
    if sections == [] then []
    else [WrittenSection(lex(WriteHeader(sections[0].path, sections[0].tag)), LexedOps(lex, sections[0].edits))] + LexedSections(lex, sections[1..])
  }

  lemma {:induction false} LexConcat(lex: string -> Line<string>, a: seq<string>, b: seq<string>)
    ensures LexAll(lex, a + b) == LexAll(lex, a) + LexAll(lex, b)
  {
    if a == [] {
      assert a + b == b;
    } else {
      assert (a + b)[1..] == a[1..] + b;
      LexConcat(lex, a[1..], b);
      Associate([lex(a[0])], LexAll(lex, a[1..]), LexAll(lex, b));
    }
  }

  lemma LexFirst(lex: string -> Line<string>, line: string, rest: seq<string>)
    ensures LexAll(lex, [line] + rest) == [lex(line)] + LexAll(lex, rest)
  {
    assert ([line] + rest)[1..] == rest;
  }

  lemma {:induction false} EditsAreLexed(lex: string -> Line<string>, edits: seq<Edit>)
    ensures LexAll(lex, WriteEdits(edits)) == OpLines(LexedOps(lex, edits))
  {
    if edits != [] {
      EditsAreLexed(lex, edits[1..]);
      LexFirst(lex, WriteOp(edits[0]), WriteRows(Rows(edits[0])) + WriteEdits(edits[1..]));
      LexConcat(lex, WriteRows(Rows(edits[0])), WriteEdits(edits[1..]));
      assert LexedOps(lex, edits)[1..] == LexedOps(lex, edits[1..]);
    }
  }

  lemma {:induction false} SectionsAreLexed(lex: string -> Line<string>, sections: seq<Section>)
    ensures LexAll(lex, WriteSections(sections)) == SectionLines(LexedSections(lex, sections))
  {
    if sections != [] {
      var s := sections[0];
      SectionsAreLexed(lex, sections[1..]);
      EditsAreLexed(lex, s.edits);
      LexFirst(lex, WriteHeader(s.path, s.tag), WriteEdits(s.edits) + WriteSections(sections[1..]));
      LexConcat(lex, WriteEdits(s.edits), WriteSections(sections[1..]));
      assert LexedSections(lex, sections)[1..] == LexedSections(lex, sections[1..]);
    }
  }

  /** A lexer that takes rows for rows, ops for the ops they are, and headers for headers. */
  ghost predicate Reads(lex: string -> Line<string>) {
    && (forall row :: IsRowLine(lex(RowText(row))) && lex(RowText(row)).row == row)
    && (forall e :: GoodEdit(e) ==> IsPlain(lex(WriteOp(e))) && (lex(WriteOp(e)).verb, lex(WriteOp(e)).verbOp) == OpMeaning(e))
    && forall path, tag ::
         GoodTarget(path, tag) ==> IsHeaderLine(lex(WriteHeader(path, tag))) && lex(WriteHeader(path, tag)).target == path
  }

  /** The lexer is one of these. */
  lemma LexReads()
    ensures Reads(Lex)
  {
    forall row
      ensures IsRowLine(Lex(RowText(row))) && Lex(RowText(row)).row == row
    {
      RowReadsBack(row);
    }
    forall e | GoodEdit(e)
      ensures IsPlain(Lex(WriteOp(e))) && (Lex(WriteOp(e)).verb, Lex(WriteOp(e)).verbOp) == OpMeaning(e)
    {
      OpReadsBack(e);
    }
    forall path, tag | GoodTarget(path, tag)
      ensures IsHeaderLine(Lex(WriteHeader(path, tag))) && Lex(WriteHeader(path, tag)).target == path
    {
      HeaderReadsBack(path, tag);
    }
  }

  lemma {:induction false} RowsAreRows(lex: string -> Line<string>, rows: seq<string>)
    requires Reads(lex)
    ensures forall i | 0 <= i < |LexAll(lex, WriteRows(rows))| :: IsRowLine(LexAll(lex, WriteRows(rows))[i])
    ensures RowsOf(LexAll(lex, WriteRows(rows))) == rows
  {
    if rows != [] {
      RowsAreRows(lex, rows[1..]);
      LexFirst(lex, RowText(rows[0]), WriteRows(rows[1..]));
      assert LexAll(lex, WriteRows(rows))[1..] == LexAll(lex, WriteRows(rows[1..]));
      assert rows == [rows[0]] + rows[1..];
    }
  }

  predicate GoodEdits(edits: seq<Edit>) {
    forall i | 0 <= i < |edits| :: GoodEdit(edits[i])
  }

  lemma {:induction false} OpsAreGood(lex: string -> Line<string>, edits: seq<Edit>)
    requires Reads(lex) && GoodEdits(edits)
    ensures |LexedOps(lex, edits)| == |edits| && forall i | 0 <= i < |edits| :: GoodOp(LexedOps(lex, edits)[i])
  {
    if edits != [] {
      assert GoodEdit(edits[0]);
      RowsAreRows(lex, Rows(edits[0]));
      OpsAreGood(lex, edits[1..]);
      assert LexedOps(lex, edits)[1..] == LexedOps(lex, edits[1..]);
    }
  }

  predicate GoodSections(sections: seq<Section>) {
    forall i | 0 <= i < |sections| :: GoodTarget(sections[i].path, sections[i].tag) && GoodEdits(sections[i].edits)
  }

  lemma {:induction false} SectionsAreGood(lex: string -> Line<string>, sections: seq<Section>)
    requires Reads(lex) && GoodSections(sections)
    ensures |LexedSections(lex, sections)| == |sections|
    ensures
      forall i | 0 <= i < |sections| ::
        var w := LexedSections(lex, sections)[i];
        GoodSection(w) && w.header.target == sections[i].path && w.ops == LexedOps(lex, sections[i].edits)
  {
    if sections != [] {
      OpsAreGood(lex, sections[0].edits);
      SectionsAreGood(lex, sections[1..]);
      assert LexedSections(lex, sections)[1..] == LexedSections(lex, sections[1..]);
    }
  }

  // ----- What was meant, in the writer's own terms

  function BlocksMeant(edits: seq<Edit>): seq<seq<string>> {
    if edits == [] then [] else (if edits[0].DeleteLines? then [] else [Rows(edits[0])]) + BlocksMeant(edits[1..])
  }

  function DeletedMeant(edits: seq<Edit>): nat {
    if edits == [] then 0 else OpMeaning(edits[0]).1.deleted + DeletedMeant(edits[1..])
  }

  function AnchorsMeant(edits: seq<Edit>): seq<string> {
    if edits == [] then [] else OpMeaning(edits[0]).1.anchors + AnchorsMeant(edits[1..])
  }

  function LinesMeant(edits: seq<Edit>): seq<nat> {
    if edits == [] then [] else OpMeaning(edits[0]).1.lines + LinesMeant(edits[1..])
  }

  ghost predicate Recovered(s: EditSection<string>, w: Section) {
    && s.target == w.path && s.ops == |w.edits|
    && s.blocks == BlocksMeant(w.edits) && s.anchors == AnchorsMeant(w.edits) && s.deleted == DeletedMeant(w.edits)
    && IsLeast(s.minLine, LinesMeant(w.edits)) && IsGreatest(s.maxLine, LinesMeant(w.edits))
  }

  lemma {:induction false} MeantIsRead(lex: string -> Line<string>, edits: seq<Edit>)
    requires Reads(lex) && GoodEdits(edits)
    ensures
      var ops := LexedOps(lex, edits);
      && BlocksOf(ops) == BlocksMeant(edits) && AnchorsOf(ops) == AnchorsMeant(edits)
      && LinesOf(ops) == LinesMeant(edits) && DeletedBy(ops) == DeletedMeant(edits)
  {
    if edits != [] {
      assert GoodEdit(edits[0]);
      RowsAreRows(lex, Rows(edits[0]));
      MeantIsRead(lex, edits[1..]);
      assert LexedOps(lex, edits)[1..] == LexedOps(lex, edits[1..]);
    }
  }

  /** One carriage return at the end of a line goes. */
  function Chomp(line: string): string {
    if line != "" && line[|line| - 1] == '\r' then line[..|line| - 1] else line
  }

  function InputLines(input: string): (lines: seq<string>) {
    var raw := ChangelogText.Split(input);
    seq(|raw|, i requires 0 <= i < |raw| => Chomp(raw[i]))
  }

  method ParseHashlineInput(input: string) returns (sections: seq<EditSection<string>>)
    ensures sections == Parsed(LexAll(Lex, InputLines(input)))
  {
    sections := ParseLines(LexAll(Lex, InputLines(input)));
  }

  /** A line that survives being written: no newline in it, no carriage return at its end. */
  predicate IsWritable(line: string) {
    '\n' !in line && (line != "" ==> line[|line| - 1] != '\r')
  }

  lemma InputReadsBack(lines: seq<string>)
    requires lines != [] && forall i | 0 <= i < |lines| :: IsWritable(lines[i])
    ensures InputLines(ChangelogText.Join(lines)) == lines
  {
    assert forall i | 0 <= i < |lines| :: '\n' !in lines[i] by {
      assert forall i | 0 <= i < |lines| :: IsWritable(lines[i]);
    }
    ChangelogText.SplitJoin(lines);
    assert forall i | 0 <= i < |lines| :: IsWritable(lines[i]) && Chomp(lines[i]) == lines[i];
  }

  ghost predicate AllRecovered(read: seq<EditSection<string>>, sections: seq<Section>) {
    |read| == |sections| && forall i | 0 <= i < |read| :: Recovered(read[i], sections[i])
  }

  /** Rows that survive being written. */
  predicate WritableEdits(edits: seq<Edit>) {
    forall i | 0 <= i < |edits| :: forall j | 0 <= j < |Rows(edits[i])| :: IsWritable(Rows(edits[i])[j])
  }

  lemma {:induction false} RowsAreWritable(rows: seq<string>)
    requires forall j | 0 <= j < |rows| :: IsWritable(rows[j])
    ensures forall i | 0 <= i < |WriteRows(rows)| :: IsWritable(WriteRows(rows)[i])
  {
    if rows != [] {
      RowsAreWritable(rows[1..]);
      assert IsWritable(rows[0]);
    }
  }

  lemma WritableAfter(a: string, b: string)
    requires '\n' !in a && b != "" && IsWritable(b)
    ensures a + b != "" && IsWritable(a + b)
  {
    assert (a + b)[|a + b| - 1] == b[|b| - 1];
  }

  lemma WordIsPlain(word: string)
    requires IsWord(word)
    ensures '\n' !in word && IsWritable(word)
  {
  }

  lemma NumberIsWritable(n: nat, colon: bool)
    ensures '\n' !in PrintNat(n) && PrintNat(n) + Tail(colon) != "" && IsWritable(PrintNat(n) + Tail(colon))
  {
    assert AllDigits(PrintNat(n));
    if colon {
      WritableAfter(PrintNat(n), ":");
    } else {
      assert PrintNat(n) + "" == PrintNat(n);
    }
  }

  lemma RangeIsWritable(word: string, a: nat, b: nat, form: Form, colon: bool)
    requires IsWord(word)
    ensures IsWritable(word + RangeText(a, b, form, Tail(colon)))
  {
    var tail := PrintNat(b) + Tail(colon);
    WordIsPlain(word);
    NumberIsWritable(a, colon);
    if form == Alone {
      WritableAfter(" ", PrintNat(a) + Tail(colon));
    } else {
      NumberIsWritable(b, colon);
      WritableAfter(SeparatorText(form), tail);
      WritableAfter(PrintNat(a), SeparatorText(form) + tail);
      WritableAfter(" ", PrintNat(a) + (SeparatorText(form) + tail));
    }
    WritableAfter(word, RangeText(a, b, form, Tail(colon)));
  }

  lemma PlaceIsWritable(word: string, place: string, n: nat, colon: bool)
    requires IsWord(word) && IsWord(place)
    ensures IsWritable(word + PlaceText(place, n, colon))
  {
    var number := PrintNat(n) + Tail(colon);
    WordIsPlain(word);
    WordIsPlain(place);
    NumberIsWritable(n, colon);
    WritableAfter(" ", number);
    WritableAfter(place, " " + number);
    WritableAfter(" ", place + (" " + number));
    WritableAfter(word, PlaceText(place, n, colon));
  }

  lemma EndIsWritable(word: string, end: string, colon: bool)
    requires IsWord(word) && IsWord(end)
    ensures IsWritable(word + EndText(end, colon))
  {
    WordIsPlain(word);
    WordIsPlain(end);
    if colon {
      WritableAfter(end, ":");
    } else {
      assert end + "" == end;
    }
    WritableAfter(" ", end + Tail(colon));
    WritableAfter(word, EndText(end, colon));
  }

  lemma OpIsWritable(e: Edit)
    ensures IsWritable(WriteOp(e))
  {
    match e {
      case ReplaceLines(a, b, form, colon, _) => RangeIsWritable(REPLACE, a, b, form, colon);
      case DeleteLines(a, b, form) => RangeIsWritable(DELETE, a, b, form, false);
      case InsertBefore(n, colon, _) => PlaceIsWritable(INSERT, BEFORE, n, colon);
      case InsertAfter(n, colon, _) => PlaceIsWritable(INSERT, AFTER, n, colon);
      case InsertAtHead(colon, _) => EndIsWritable(INSERT, HEAD, colon);
      case InsertAtTail(colon, _) => EndIsWritable(INSERT, TAIL, colon);
    }
  }

  lemma HeaderIsWritable(path: string, tag: string)
    requires GoodTarget(path, tag)
    ensures IsWritable(WriteHeader(path, tag))
  {
    var s := WriteHeader(path, tag);
    assert s == [PILCROW] + path + TagText(tag);
    assert forall i | 0 <= i < |path| :: IsPathChar(path[i]);
    assert tag == "" ==> s[|s| - 1] == path[|path| - 1];
    assert tag != "" ==> s[|s| - 1] == tag[|tag| - 1];
  }

  ghost predicate AllWritable(lines: seq<string>) {
    forall i | 0 <= i < |lines| :: IsWritable(lines[i])
  }

  lemma WritableConcat(a: seq<string>, b: seq<string>)
    requires AllWritable(a) && AllWritable(b)
    ensures AllWritable(a + b)
  {
  }

  lemma {:induction false} EditsAreWritable(edits: seq<Edit>)
    requires WritableEdits(edits)
    ensures AllWritable(WriteEdits(edits))
  {
    if edits != [] {
      OpIsWritable(edits[0]);
      RowsAreWritable(Rows(edits[0]));
      EditsAreWritable(edits[1..]);
      WritableConcat(WriteRows(Rows(edits[0])), WriteEdits(edits[1..]));
      WritableConcat([WriteOp(edits[0])], WriteRows(Rows(edits[0])) + WriteEdits(edits[1..]));
    }
  }

  predicate WritableSections(sections: seq<Section>) {
    forall i | 0 <= i < |sections| :: WritableEdits(sections[i].edits)
  }

  lemma {:induction false} SectionsAreWritable(sections: seq<Section>)
    requires GoodSections(sections) && WritableSections(sections)
    ensures AllWritable(WriteSections(sections))
  {
    if sections != [] {
      var s := sections[0];
      HeaderIsWritable(s.path, s.tag);
      EditsAreWritable(s.edits);
      SectionsAreWritable(sections[1..]);
      WritableConcat(WriteEdits(s.edits), WriteSections(sections[1..]));
      WritableConcat([WriteHeader(s.path, s.tag)], WriteEdits(s.edits) + WriteSections(sections[1..]));
    }
  }

  /** The script as text, in its envelope. */
  function ScriptText(sections: seq<Section>): string {
    ChangelogText.Join([BEGIN] + (WriteSections(sections) + [END]))
  }

  lemma MarkerIsLexed(s: string)
    requires s != "" && !IsSpace(s[|s| - 1])
    ensures Lex(s).isBegin <==> s == BEGIN
    ensures Lex(s).isStop <==> s == END || s == ABORT
  {
    assert DropSpaces(s) == s;
  }

  lemma EnvelopeReads()
    ensures Lex(BEGIN).isBegin && Lex(END).isStop && !Lex(END).isBegin
  {
    assert BEGIN[|BEGIN| - 1] == 'h' && END[|END| - 1] == 'h' && |BEGIN| != |END|;
    MarkerIsLexed(BEGIN);
    MarkerIsLexed(END);
  }

  lemma ScriptIsWritable(sections: seq<Section>)
    requires GoodSections(sections) && WritableSections(sections)
    ensures InputLines(ScriptText(sections)) == [BEGIN] + (WriteSections(sections) + [END])
  {
    var lines := WriteSections(sections);
    assert IsWritable(BEGIN) && IsWritable(END);
    SectionsAreWritable(sections);
    WritableConcat(lines, [END]);
    WritableConcat([BEGIN], lines + [END]);
    InputReadsBack([BEGIN] + (lines + [END]));
  }

  lemma ScriptIsRecovered(lex: string -> Line<string>, sections: seq<Section>)
    requires Reads(lex) && GoodSections(sections) && WritableSections(sections)
    requires lex(BEGIN).isBegin && lex(END).isStop && !lex(END).isBegin
    ensures AllRecovered(Parsed(LexAll(lex, InputLines(ScriptText(sections)))), sections)
  {
    ScriptIsWritable(sections);
    EnvelopeIsLexed(lex, sections);
    LexedIsRecovered(lex, sections);
  }

  /** Whatever the rows say, so long as none has a newline in it or a carriage return at its end, a script written from edits parses to those edits. */
  lemma PayloadNeverChangesStructure(sections: seq<Section>)
    requires GoodSections(sections) && WritableSections(sections)
    ensures AllRecovered(Parsed(LexAll(Lex, InputLines(ScriptText(sections)))), sections)
  {
    LexReads();
    EnvelopeReads();
    ScriptIsRecovered(Lex, sections);
  }

  lemma EnvelopeIsLexed(lex: string -> Line<string>, sections: seq<Section>)
    ensures
      LexAll(lex, [BEGIN] + (WriteSections(sections) + [END]))
      == [lex(BEGIN)] + (SectionLines(LexedSections(lex, sections)) + [lex(END)])
  {
    var lines := WriteSections(sections);
    LexFirst(lex, BEGIN, lines + [END]);
    LexConcat(lex, lines, [END]);
    LexFirst(lex, END, []);
    assert [END] + [] == [END] && [lex(END)] + [] == [lex(END)];
    SectionsAreLexed(lex, sections);
  }

  lemma LexedIsRecovered(lex: string -> Line<string>, sections: seq<Section>)
    requires Reads(lex) && GoodSections(sections)
    requires lex(BEGIN).isBegin && lex(END).isStop && !lex(END).isBegin
    ensures AllRecovered(Parsed([lex(BEGIN)] + (SectionLines(LexedSections(lex, sections)) + [lex(END)])), sections)
  {
    var written := LexedSections(lex, sections);
    SectionsAreGood(lex, sections);
    WrittenScriptReadsBack([lex(BEGIN)], written, [lex(END)]);
    MeanIsRecovered(lex, Parsed([lex(BEGIN)] + (SectionLines(written) + [lex(END)])), written, sections);
  }

  lemma MeanIsRecovered(lex: string -> Line<string>, read: seq<EditSection<string>>, written: seq<WrittenSection<string>>, sections: seq<Section>)
    requires Reads(lex) && GoodSections(sections) && AllMean(read, written) && |written| == |sections|
    requires
      forall i | 0 <= i < |sections| ::
        written[i].header.target == sections[i].path && written[i].ops == LexedOps(lex, sections[i].edits)
    ensures AllRecovered(read, sections)
  {
    forall i | 0 <= i < |read|
      ensures Recovered(read[i], sections[i])
    {
      SectionIsRecovered(lex, read[i], sections[i]);
    }
  }

  lemma SectionIsRecovered(lex: string -> Line<string>, read: EditSection<string>, s: Section)
    requires Reads(lex) && GoodEdits(s.edits) && Means(read, s.path, LexedOps(lex, s.edits))
    ensures Recovered(read, s)
  {
    MeantIsRead(lex, s.edits);
    OpsAreGood(lex, s.edits);
  }
}
