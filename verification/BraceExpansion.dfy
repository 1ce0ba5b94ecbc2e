/** Expanding brace expressions. */
module BraceExpansion {
  import opened Wrappers
  import opened Words
  import opened Decimal

  datatype Piece = Text(text: string) | Expr(members: seq<Member>)

  datatype Member = NumberSequence(start: i64, end: i64, increment: i64) | Child(pieces: seq<Piece>)

  function Abs(n: int): nat {
    if n < 0 then -n else n
  }

  /** The step of a sequence: never zero, and never negative. */
  function StepOf(increment: i64): (step: nat)
    ensures 1 <= step <= TWO_63
  {
    if increment == 0 then 1 else Abs(increment)
  }

  function PrintInt(n: int): string {
    if n < 0 then "-" + PrintNat(-n) else PrintNat(n)
  }

  /** From n toward the end, by steps, without passing it. */
  function Terms(n: int, end: int, step: nat): seq<int>
    requires step >= 1
    decreases Abs(end - n)
  {
    if n == end then [n]
    else if n < end then [n] + if n + step <= end then Terms(n + step, end, step) else []
    else [n] + if n - step >= end then Terms(n - step, end, step) else []
  }

  /** The distance in whole steps, rounded down, and one more. */
  predicate IsCount(count: nat, distance: nat, step: nat) {
    count >= 1 && (count - 1) * step <= distance < count * step
  }

  /** There are as many terms as the distance divided by the step, and one more. */
  lemma {:induction false} TermsAreCounted(n: int, end: int, step: nat)
    requires step >= 1
    ensures IsCount(|Terms(n, end, step)|, Abs(end - n), step)
    decreases Abs(end - n)
  {
    if Abs(end - n) >= step {
      var next := if n < end then n + step else n - step;
      TermsAreCounted(next, end, step);
      OneStepMore(|Terms(next, end, step)|, Abs(end - next), step);
    }
  }

  lemma OneStepMore(count: nat, distance: nat, step: nat)
    requires IsCount(count, distance, step)
    ensures IsCount(count + 1, distance + step, step)
  {
    assert (count + 1) * step == count * step + step && count * step == (count - 1) * step + step;
  }

  lemma {:induction false} TermsAreSpaced(n: int, end: int, step: nat, i: nat)
    requires step >= 1 && i < |Terms(n, end, step)|
    ensures Terms(n, end, step)[i] == if n <= end then n + i * step else n - i * step
    ensures if n <= end then n <= Terms(n, end, step)[i] <= end else end <= Terms(n, end, step)[i] <= n
    decreases i
  {
    if i > 0 {
      var next := if n < end then n + step else n - step;
      TermsAreSpaced(next, end, step, i - 1);
      assert i * step == (i - 1) * step + step;
    }
  }

  predicate Fits(n: int) {
    -TWO_63 <= n < TWO_63
  }

  /** The step as it is subtracted: the largest one does not fit a signed word and wraps. */
  function Signed(step: nat): i64
    requires 1 <= step <= TWO_63
  {
    if step == TWO_63 then -TWO_63 else step
  }

  /** Counting down in machine words: no value where a subtraction overflows. */
  function CountDown(n: i64, end: i64, step: i64): Option<seq<int>>
    requires step != 0 && n >= end
    decreases if step > 0 then n - end else TWO_63 - n
  {
    if !Fits(n - step) then None
    else if n - step < end then Some([n])
    else
      var rest := CountDown(n - step, end, step);
      if rest.None? then None else Some([n] + rest.value)
  }

  /** The last term of a descending sequence. */
  function LastTerm(n: int, end: int, step: nat): int
    requires step >= 1 && n >= end
    decreases n - end
  {
    if n - step < end then n else LastTerm(n - step, end, step)
  }

  /** Counting down in words gives the terms exactly when the step below the last one is still a word; otherwise it overflows. */
  lemma {:induction false} CountDownIsExact(n: i64, end: i64, step: nat)
    requires 1 <= step < TWO_63 && n > end
    ensures CountDown(n, end, step) == if Fits(LastTerm(n, end, step) - step) then Some(Terms(n, end, step)) else None
    decreases n - end
  {
    if n - step > end {
      CountDownIsExact(n - step, end, step);
      LastIsLower(n - step, end, step);
    } else if n - step == end {
      assert LastTerm(n, end, step) == end;
      assert CountDown(end, end, step) == if Fits(end - step) then Some([end]) else None;
    } else {
      assert [n] + [] == [n];
    }
  }

  lemma {:induction false} LastIsLower(n: int, end: int, step: nat)
    requires step >= 1 && n >= end
    ensures end <= LastTerm(n, end, step) <= n
    decreases n - end
  {
    if n - step >= end {
      LastIsLower(n - step, end, step);
    }
  }

  /** The one increment whose size is no signed word always overflows on the way down. */
  lemma LargestStepOverflows(n: i64, end: i64)
    requires n > end
    ensures CountDown(n, end, Signed(TWO_63)) == None
  {
  }

  // ----- Combining

  function Prefixed(a: string, bs: seq<string>): (r: seq<string>)
    ensures |r| == |bs| && forall i | 0 <= i < |bs| :: r[i] == a + bs[i]
  {
    seq(|bs|, i requires 0 <= i < |bs| => a + bs[i])
  }

  /** Every one of the first followed by every one of the second. */
  function Cross(xs: seq<string>, ys: seq<string>): seq<string> {
    if xs == [] then [] else Prefixed(xs[0], ys) + Cross(xs[1..], ys)
  }

  function Strings(terms: seq<int>): (r: seq<string>)
    ensures |r| == |terms| && forall i | 0 <= i < |terms| :: r[i] == PrintInt(terms[i])
  {
    seq(|terms|, i requires 0 <= i < |terms| => PrintInt(terms[i]))
  }

  function ExpandPiece(p: Piece): seq<string>
    decreases p
  {
    match p
    case Text(text) => [text]
    case Expr(members) => ExpandMembers(members)
  }

  function ExpandMembers(members: seq<Member>): seq<string>
    decreases members
  {
    if members == [] then [] else ExpandMember(members[0]) + ExpandMembers(members[1..])
  }

  function ExpandMember(m: Member): seq<string>
    decreases m
  {
    match m
    case NumberSequence(start, end, increment) => Strings(Terms(start, end, StepOf(increment)))
    case Child(pieces) => Combined(Lists(pieces))
  }

  /** The expansions of each piece. */
  function Lists(pieces: seq<Piece>): (lists: seq<seq<string>>)
    ensures |lists| == |pieces|
    decreases pieces
  {
    if pieces == [] then [] else [ExpandPiece(pieces[0])] + Lists(pieces[1..])
  }

  /** Every choice of one from each list, the last list varying fastest. */
  function Choices(lists: seq<seq<string>>): seq<seq<string>>
    decreases |lists|
  {
    if lists == [] then [[]] else Choose(lists[0], Choices(lists[1..]))
  }

  function Choose(first: seq<string>, rest: seq<seq<string>>): seq<seq<string>> {
    if first == [] then [] else Started(first[0], rest) + Choose(first[1..], rest)
  }

  function Started(x: string, rest: seq<seq<string>>): (r: seq<seq<string>>)
    ensures |r| == |rest| && forall i | 0 <= i < |rest| :: r[i] == [x] + rest[i]
  {
    seq(|rest|, i requires 0 <= i < |rest| => [x] + rest[i])
  }

  function JoinAll(words: seq<string>): string {
    if words == [] then "" else words[0] + JoinAll(words[1..])
  }

  function Joined(choices: seq<seq<string>>): (r: seq<string>)
    ensures |r| == |choices| && forall i | 0 <= i < |choices| :: r[i] == JoinAll(choices[i])
  {
    seq(|choices|, i requires 0 <= i < |choices| => JoinAll(choices[i]))
  }

  /** What the expansion does: the cartesian product, each choice joined. */
  function Combined(lists: seq<seq<string>>): seq<string> {
    Joined(Choices(lists))
  }

  function Expand(pieces: seq<Piece>): seq<string> {
    Combined(Lists(pieces))
  }

  // ----- Laws

  lemma {:induction false} CrossConcat(a: seq<string>, b: seq<string>, ys: seq<string>)
    ensures Cross(a + b, ys) == Cross(a, ys) + Cross(b, ys)
  {
    if a == [] {
      assert a + b == b;
    } else {
      assert (a + b)[1..] == a[1..] + b;
      CrossConcat(a[1..], b, ys);
      Regroup(Prefixed(a[0], ys), Cross(a[1..], ys), Cross(b, ys));
    }
  }

  lemma Regroup<T>(a: seq<T>, b: seq<T>, c: seq<T>)
    ensures a + b + c == a + (b + c)
  {
  }

  lemma PrefixedCross(a: string, xs: seq<string>, ys: seq<string>)
    ensures Cross(Prefixed(a, xs), ys) == Prefixed(a, Cross(xs, ys))
    decreases |xs|
  {
    if xs != [] {
      var rest := xs[1..];
      PrefixedCross(a, rest, ys);
      assert Prefixed(a, xs)[1..] == Prefixed(a, rest);
      PrefixedTwice(a, xs[0], ys);
      PrefixedConcat(a, Prefixed(xs[0], ys), Cross(rest, ys));
    }
  }

  lemma PrefixedTwice(a: string, x: string, ys: seq<string>)
    ensures Prefixed(a + x, ys) == Prefixed(a, Prefixed(x, ys))
  {
    forall i | 0 <= i < |ys|
      ensures a + x + ys[i] == a + (x + ys[i])
    {
    }
  }

  lemma PrefixedConcat(a: string, xs: seq<string>, ys: seq<string>)
    ensures Prefixed(a, xs + ys) == Prefixed(a, xs) + Prefixed(a, ys)
  {
  }

  lemma {:induction false} CrossIsAssociative(xs: seq<string>, ys: seq<string>, zs: seq<string>)
    ensures Cross(Cross(xs, ys), zs) == Cross(xs, Cross(ys, zs))
  {
    if xs != [] {
      CrossIsAssociative(xs[1..], ys, zs);
      CrossConcat(Prefixed(xs[0], ys), Cross(xs[1..], ys), zs);
      PrefixedCross(xs[0], ys, zs);
    }
  }

  /** The combination index by index: the second varies fastest. */
  lemma {:induction false} CrossAt(xs: seq<string>, ys: seq<string>, i: nat, j: nat)
    requires i < |xs| && j < |ys|
    ensures i * |ys| + j < |Cross(xs, ys)| && Cross(xs, ys)[i * |ys| + j] == xs[i] + ys[j]
    decreases |xs|
  {
    if i > 0 {
      CrossAt(xs[1..], ys, i - 1, j);
      assert i * |ys| == (i - 1) * |ys| + |ys|;
    }
  }

  lemma {:induction false} CrossSize(xs: seq<string>, ys: seq<string>)
    ensures |Cross(xs, ys)| == |xs| * |ys|
  {
    if xs != [] {
      CrossSize(xs[1..], ys);
      assert |xs| * |ys| == (|xs| - 1) * |ys| + |ys|;
    }
  }

  /** Joining the choices is combining the lists pairwise, from the left or the right. */
  lemma {:induction false} JoinedIsCross(first: seq<string>, rest: seq<seq<string>>)
    ensures Joined(Choose(first, rest)) == Cross(first, Joined(rest))
    decreases |first|
  {
    if first != [] {
      JoinedIsCross(first[1..], rest);
      JoinedStarted(first[0], rest);
      JoinedConcat(Started(first[0], rest), Choose(first[1..], rest));
    }
  }

  lemma JoinedStarted(x: string, rest: seq<seq<string>>)
    ensures Joined(Started(x, rest)) == Prefixed(x, Joined(rest))
  {
    forall i | 0 <= i < |rest|
      ensures JoinAll([x] + rest[i]) == x + JoinAll(rest[i])
    {
      assert ([x] + rest[i])[1..] == rest[i];
    }
  }

  lemma JoinedConcat(a: seq<seq<string>>, b: seq<seq<string>>)
    ensures Joined(a + b) == Joined(a) + Joined(b)
  {
  }

  lemma CombinedFirst(first: seq<string>, rest: seq<seq<string>>)
    ensures Combined([first] + rest) == Cross(first, Combined(rest))
  {
    assert ([first] + rest)[1..] == rest;
    JoinedIsCross(first, Choices(rest));
  }

  lemma {:induction false} CombinedConcat(a: seq<seq<string>>, b: seq<seq<string>>)
    ensures Combined(a + b) == Cross(Combined(a), Combined(b))
    decreases |a|
  {
    if a == [] {
      assert a + b == b;
      CombinedNothing(Combined(b));
    } else {
      assert a == [a[0]] + a[1..] && a + b == [a[0]] + (a[1..] + b);
      CombinedConcat(a[1..], b);
      CombinedFirst(a[0], a[1..] + b);
      CombinedFirst(a[0], a[1..]);
      CrossIsAssociative(a[0], Combined(a[1..]), Combined(b));
    }
  }

  lemma CombinedNothing(ys: seq<string>)
    ensures Cross(Combined([]), ys) == ys
  {
    assert Combined([]) == [""];
    assert [""][1..] == [];
    forall i | 0 <= i < |ys|
      ensures "" + ys[i] == ys[i]
    {
    }
    assert Prefixed("", ys) == ys;
  }

  lemma {:induction false} ListsConcat(p: seq<Piece>, q: seq<Piece>)
    ensures Lists(p + q) == Lists(p) + Lists(q)
  {
    if p == [] {
      assert p + q == q;
    } else {
      assert (p + q)[1..] == p[1..] + q;
      ListsConcat(p[1..], q);
      Regroup([ExpandPiece(p[0])], Lists(p[1..]), Lists(q));
    }
  }

  /** Expansion turns one after the other into every one of the first followed by every one of the second. */
  lemma ExpandIsHomomorphic(p: seq<Piece>, q: seq<Piece>)
    ensures Expand(p + q) == Cross(Expand(p), Expand(q))
    ensures |Expand(p + q)| == |Expand(p)| * |Expand(q)|
  {
    ListsConcat(p, q);
    CombinedConcat(Lists(p), Lists(q));
    CrossSize(Expand(p), Expand(q));
  }

  /** In order: the expansion of the second part varies fastest. */
  lemma ExpandInOrder(p: seq<Piece>, q: seq<Piece>, i: nat, j: nat)
    requires i < |Expand(p)| && j < |Expand(q)|
    ensures
      var k := i * |Expand(q)| + j;
      k < |Expand(p + q)| && Expand(p + q)[k] == Expand(p)[i] + Expand(q)[j]
  {
    ExpandIsHomomorphic(p, q);
    CrossAt(Expand(p), Expand(q), i, j);
  }

  /** How many expansions there are. */
  function Count(pieces: seq<Piece>): nat
    decreases pieces
  {
    if pieces == [] then 1 else CountPiece(pieces[0]) * Count(pieces[1..])
  }

  function CountPiece(p: Piece): nat
    decreases p
  {
    match p
    case Text(_) => 1
    case Expr(members) => CountMembers(members)
  }

  function CountMembers(members: seq<Member>): nat
    decreases members
  {
    if members == [] then 0 else CountMember(members[0]) + CountMembers(members[1..])
  }

  function CountMember(m: Member): nat
    decreases m
  {
    match m
    case NumberSequence(start, end, increment) => |Terms(start, end, StepOf(increment))|
    case Child(pieces) => Count(pieces)
  }

  /** Counts multiply along pieces and add up along members, however deeply they nest. */
  lemma {:induction false} ExpansionsAreCounted(pieces: seq<Piece>)
    ensures |Expand(pieces)| == Count(pieces)
    decreases pieces
  {
    if pieces == [] {
      assert Combined([]) == [""];
    } else {
      PieceIsCounted(pieces[0]);
      ExpansionsAreCounted(pieces[1..]);
      CombinedFirst(ExpandPiece(pieces[0]), Lists(pieces[1..]));
      CrossSize(ExpandPiece(pieces[0]), Expand(pieces[1..]));
    }
  }

  lemma {:induction false} PieceIsCounted(p: Piece)
    ensures |ExpandPiece(p)| == CountPiece(p)
    decreases p
  {
    match p {
      case Text(_) =>
      case Expr(members) => MembersAreCounted(members);
    }
  }

  lemma {:induction false} MembersAreCounted(members: seq<Member>)
    ensures |ExpandMembers(members)| == CountMembers(members)
    decreases members
  {
    if members != [] {
      MemberIsCounted(members[0]);
      MembersAreCounted(members[1..]);
    }
  }

  lemma {:induction false} MemberIsCounted(m: Member)
    ensures |ExpandMember(m)| == CountMember(m)
    decreases m
  {
    match m {
      case NumberSequence(_, _, _) =>
      case Child(pieces) => ExpansionsAreCounted(pieces);
    }
  }
}
