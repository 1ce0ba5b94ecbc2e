/** Splitting an input line into fields, with a limit on their number. */
module FieldSplitting {
  import opened Wrappers

  predicate IsDelimiter(ifs: string, c: char) {
    c in ifs
  }

  /** White space among the separators. */
  predicate IsBlank(ifs: string, c: char) {
    c in ifs && (c == ' ' || c == '\t' || c == '\n')
  }

  function SkipBlanks(ifs: string, s: string): (t: string)
    ensures t != "" ==> !IsBlank(ifs, t[0])
    ensures |t| <= |s| && t == s[|s| - |t|..]
  {
    if s != "" && IsBlank(ifs, s[0]) then SkipBlanks(ifs, s[1..]) else s
  }

  function DropBlanks(ifs: string, s: string): (t: string)
    ensures t != "" ==> !IsBlank(ifs, t[|t| - 1])
    ensures |t| <= |s| && t == s[..|t|]
  {
    if s != "" && IsBlank(ifs, s[|s| - 1]) then DropBlanks(ifs, s[..|s| - 1]) else s
  }

  function Trimmed(ifs: string, line: string): (t: string)
    ensures t != "" ==> !IsBlank(ifs, t[0]) && !IsBlank(ifs, t[|t| - 1])
  {
    DropBlanks(ifs, SkipBlanks(ifs, line))
  }

  /** The next field is the last one allowed. */
  predicate AtLimit(done: nat, limit: Option<nat>) {
    limit.Some? && done + 1 >= limit.value
  }

  /** The fields still to come, when cur is the start of the current one and so many are done. */
  function Rest(ifs: string, cur: string, s: string, limit: Option<nat>, done: nat): (fields: seq<string>)
    decreases |s|
  {
    if AtLimit(done, limit) then
      var last := if cur == "" then SkipBlanks(ifs, s) else cur + s;
      if last == "" then [] else [last]
    else if s == "" then if cur == "" then [] else [cur]
    else if !IsDelimiter(ifs, s[0]) then Rest(ifs, cur + [s[0]], s[1..], limit, done)
    else [cur] + Rest(ifs, "", if IsBlank(ifs, s[0]) then SkipBlanks(ifs, s[1..]) else s[1..], limit, done + 1)
  }

  function Fields(ifs: string, line: string, limit: Option<nat>): seq<string> {
    Rest(ifs, "", Trimmed(ifs, line), limit, 0)
  }

  /** The state between two characters. */
  ghost predicate Between(ifs: string, t: string, i: nat, limit: Option<nat>, fields: seq<string>, cur: string, skipping: bool, afterDelimiter: bool, remainder: bool, want: seq<string>)
  {
    && i <= |t|
    && (skipping ==> cur == "")
    && (remainder <==> AtLimit(|fields|, limit) && cur != "")
    && (i > 0 && cur == "" && !IsBlank(ifs, t[i - 1]) ==> afterDelimiter)
    && fields + Rest(ifs, cur, if skipping then SkipBlanks(ifs, t[i..]) else t[i..], limit, |fields|) == want
  }

  lemma SkipOne(ifs: string, t: string, i: nat, limit: Option<nat>, fields: seq<string>, cur: string, skipping: bool, after: bool, remainder: bool, want: seq<string>)
    requires Between(ifs, t, i, limit, fields, cur, skipping, after, remainder, want)
    requires i < |t| && IsBlank(ifs, t[i]) && (skipping || (cur == "" && AtLimit(|fields|, limit)))
    ensures Between(ifs, t, i + 1, limit, fields, cur, true, after, remainder, want)
  {
    assert t[i..][1..] == t[i + 1..];
    SkipTwice(ifs, t[i + 1..]);
    assert SkipBlanks(ifs, t[i..]) == SkipBlanks(ifs, t[i + 1..]);
  }

  lemma SkipTwice(ifs: string, s: string)
    ensures SkipBlanks(ifs, SkipBlanks(ifs, s)) == SkipBlanks(ifs, s)
  {
  }

  lemma RestTakes(ifs: string, cur: string, c: char, s: string, limit: Option<nat>, done: nat)
    requires !IsDelimiter(ifs, c) || (AtLimit(done, limit) && (cur != "" || !IsBlank(ifs, c)))
    ensures Rest(ifs, cur, [c] + s, limit, done) == Rest(ifs, cur + [c], s, limit, done)
  {
    var all := [c] + s;
    assert all[1..] == s && all[0] == c;
    var next := cur + [c];
    assert next != "";
    if AtLimit(done, limit) {
      assert cur == "" ==> SkipBlanks(ifs, all) == all && cur + all == all;
      assert cur + all == next + s;
      assert Rest(ifs, cur, all, limit, done) == [cur + all];
      assert Rest(ifs, next, s, limit, done) == [next + s];
    }
  }

  lemma TakeOne(ifs: string, t: string, i: nat, limit: Option<nat>, fields: seq<string>, cur: string, skipping: bool, after: bool, remainder: bool, want: seq<string>, next: bool)
    requires Between(ifs, t, i, limit, fields, cur, skipping, after, remainder, want)
    requires i < |t| && !(skipping && IsBlank(ifs, t[i]))
    requires !IsDelimiter(ifs, t[i]) || (AtLimit(|fields|, limit) && (remainder || !IsBlank(ifs, t[i])))
    ensures Between(ifs, t, i + 1, limit, fields, cur + [t[i]], false, next, AtLimit(|fields|, limit), want)
  {
    assert t[i..] == [t[i]] + t[i + 1..];
    assert skipping ==> SkipBlanks(ifs, t[i..]) == t[i..];
    RestTakes(ifs, cur, t[i], t[i + 1..], limit, |fields|);
  }

  lemma RestEnds(ifs: string, cur: string, c: char, s: string, limit: Option<nat>, done: nat)
    requires IsDelimiter(ifs, c) && !AtLimit(done, limit)
    ensures
      Rest(ifs, cur, [c] + s, limit, done)
      == [cur] + Rest(ifs, "", if IsBlank(ifs, c) then SkipBlanks(ifs, s) else s, limit, done + 1)
  {
    var all := [c] + s;
    assert all[1..] == s && all[0] == c;
  }

  lemma Associate(a: seq<string>, b: seq<string>, c: seq<string>)
    ensures a + (b + c) == a + b + c
  {
  }

  lemma EndOne(ifs: string, t: string, i: nat, limit: Option<nat>, fields: seq<string>, cur: string, skipping: bool, after: bool, remainder: bool, want: seq<string>)
    requires Between(ifs, t, i, limit, fields, cur, skipping, after, remainder, want)
    requires i < |t| && !(skipping && IsBlank(ifs, t[i]))
    requires IsDelimiter(ifs, t[i]) && !AtLimit(|fields|, limit)
    ensures Between(ifs, t, i + 1, limit, fields + [cur], "", IsBlank(ifs, t[i]), !IsBlank(ifs, t[i]), false, want)
  {
    assert t[i..] == [t[i]] + t[i + 1..];
    assert skipping ==> SkipBlanks(ifs, t[i..]) == t[i..];
    RestEnds(ifs, cur, t[i], t[i + 1..], limit, |fields|);
    var next := if IsBlank(ifs, t[i]) then SkipBlanks(ifs, t[i + 1..]) else t[i + 1..];
    Associate(fields, [cur], Rest(ifs, "", next, limit, |fields| + 1));
  }

  lemma StartSplit(ifs: string, t: string, limit: Option<nat>)
    ensures Between(ifs, t, 0, limit, [], "", false, false, false, Rest(ifs, "", t, limit, 0))
  {
    assert t[0..] == t;
  }

  /** At the end nothing is left but the current field, and it is empty only after a delimiter. */
  lemma EndSplit(ifs: string, t: string, limit: Option<nat>, fields: seq<string>, cur: string, skipping: bool, after: bool, remainder: bool, want: seq<string>)
    requires Between(ifs, t, |t|, limit, fields, cur, skipping, after, remainder, want)
    requires t != "" && !IsBlank(ifs, t[|t| - 1])
    ensures want == if cur != "" || !after then fields + [cur] else fields
  {
    assert t[|t|..] == "";
    assert cur + "" == cur && fields + [] == fields;
  }

  method SplitLineByIfs(ifs: string, line: string, limit: Option<nat>) returns (fields: seq<string>)
    ensures fields == Fields(ifs, line, limit)
  {
    var t := Trimmed(ifs, line);
    fields := [];
    if t == "" {
      return;
    }
    var cur, skipping, after, remainder := "", false, false, false;
    ghost var want := Rest(ifs, "", t, limit, 0);
    StartSplit(ifs, t, limit);
    for i := 0 to |t|
      invariant Between(ifs, t, i, limit, fields, cur, skipping, after, remainder, want)
    {
      var c := t[i];
      if skipping && IsBlank(ifs, c) {
        SkipOne(ifs, t, i, limit, fields, cur, skipping, after, remainder, want);
        continue;
      }
      var atLimit := AtLimit(|fields|, limit);
      if !atLimit && IsDelimiter(ifs, c) {
        EndOne(ifs, t, i, limit, fields, cur, skipping, after, remainder, want);
        fields, cur := fields + [cur], "";
        skipping := IsBlank(ifs, c);
        after := !skipping;
      } else if atLimit && !remainder && IsDelimiter(ifs, c) {
        if IsBlank(ifs, c) {
          SkipOne(ifs, t, i, limit, fields, cur, skipping, after, remainder, want);
          skipping := true;
        } else {
          TakeOne(ifs, t, i, limit, fields, cur, skipping, after, remainder, want, after);
          skipping, remainder, cur := false, true, cur + [c];
        }
      } else {
        TakeOne(ifs, t, i, limit, fields, cur, skipping, after, remainder, want, false);
        skipping, remainder, cur, after := false, atLimit, cur + [c], false;
      }
    }
    EndSplit(ifs, t, limit, fields, cur, skipping, after, remainder, want);
    if cur != "" || !after {
      fields := fields + [cur];
    }
  }

  // ----- What the fields are

  /** At most as many fields as the limit allows, and one when the limit is less. */
  lemma {:induction false} NoMoreThanTheLimit(ifs: string, cur: string, s: string, limit: nat, done: nat)
    ensures |Rest(ifs, cur, s, Some(limit), done)| <= if done + 1 >= limit then 1 else limit - done
    decreases |s|
  {
    if !AtLimit(done, Some(limit)) && s != "" {
      if IsDelimiter(ifs, s[0]) {
        NoMoreThanTheLimit(ifs, "", if IsBlank(ifs, s[0]) then SkipBlanks(ifs, s[1..]) else s[1..], limit, done + 1);
      } else {
        NoMoreThanTheLimit(ifs, cur + [s[0]], s[1..], limit, done);
      }
    }
  }

  /** Up to the last one allowed, the fields are those of the split without a limit. */
  lemma {:induction false} AgreesBelowTheLimit(ifs: string, cur: string, s: string, limit: nat, done: nat, i: nat)
    requires i < |Rest(ifs, cur, s, Some(limit), done)| && done + i + 1 < limit
    ensures i < |Rest(ifs, cur, s, None, done)| && Rest(ifs, cur, s, None, done)[i] == Rest(ifs, cur, s, Some(limit), done)[i]
    decreases |s|
  {
    if s != "" {
      if IsDelimiter(ifs, s[0]) {
        if i > 0 {
          var next := if IsBlank(ifs, s[0]) then SkipBlanks(ifs, s[1..]) else s[1..];
          AgreesBelowTheLimit(ifs, "", next, limit, done + 1, i - 1);
        }
      } else {
        AgreesBelowTheLimit(ifs, cur + [s[0]], s[1..], limit, done, i);
      }
    }
  }

  predicate IsSuffix(a: string, b: string)
    decreases |b|
  {
    a == b || (b != "" && IsSuffix(a, b[1..]))
  }

  lemma {:induction false} SuffixTrans(a: string, b: string, c: string)
    requires IsSuffix(a, b) && IsSuffix(b, c)
    ensures IsSuffix(a, c)
    decreases |c|
  {
    if b != c {
      SuffixTrans(a, b, c[1..]);
    }
  }

  lemma {:induction false} SkippedIsSuffix(ifs: string, s: string)
    ensures IsSuffix(SkipBlanks(ifs, s), s)
  {
    if s != "" && IsBlank(ifs, s[0]) {
      SkippedIsSuffix(ifs, s[1..]);
    }
  }

  lemma AfterDelimiter(ifs: string, cur: string, s: string, limit: nat, done: nat) returns (next: string)
    requires s != "" && IsDelimiter(ifs, s[0]) && done + 1 < limit
    ensures |next| < |s| && IsSuffix(next, s[1..])
    ensures Rest(ifs, cur, s, Some(limit), done) == [cur] + Rest(ifs, "", next, Some(limit), done + 1)
  {
    next := if IsBlank(ifs, s[0]) then SkipBlanks(ifs, s[1..]) else s[1..];
    SkippedIsSuffix(ifs, s[1..]);
  }

  function Last(fields: seq<string>): string
    requires fields != []
  {
    fields[|fields| - 1]
  }

  lemma LastOfCons(first: string, more: seq<string>)
    requires more != []
    ensures Last([first] + more) == Last(more)
  {
  }

  lemma {:induction false} BelowLimitIsVerbatim(ifs: string, cur: string, s: string, limit: nat, done: nat)
    requires done + 1 < limit && |Rest(ifs, cur, s, Some(limit), done)| == limit - done
    ensures IsSuffix(Last(Rest(ifs, cur, s, Some(limit), done)), s)
    decreases |s|
  {
    if s != "" {
      if IsDelimiter(ifs, s[0]) {
        var next := AfterDelimiter(ifs, cur, s, limit, done);
        var more := Rest(ifs, "", next, Some(limit), done + 1);
        LastOfCons(cur, more);
        if done + 2 < limit {
          BelowLimitIsVerbatim(ifs, "", next, limit, done + 1);
        } else {
          SkippedIsSuffix(ifs, next);
        }
        SuffixTrans(Last(more), next, s[1..]);
      } else {
        BelowLimitIsVerbatim(ifs, cur + [s[0]], s[1..], limit, done);
      }
    }
  }

  /** The last field allowed is the rest of the line, as it stands. */
  lemma LastIsVerbatim(ifs: string, s: string, limit: nat)
    requires 0 < limit == |Rest(ifs, "", s, Some(limit), 0)|
    ensures IsSuffix(Last(Rest(ifs, "", s, Some(limit), 0)), s)
  {
    if limit == 1 {
      SkippedIsSuffix(ifs, s);
    } else {
      BelowLimitIsVerbatim(ifs, "", s, limit, 0);
    }
  }

  function Concat(fields: seq<string>): string {
    if fields == [] then "" else fields[0] + Concat(fields[1..])
  }

  /** The characters that separate nothing. */
  function Content(ifs: string, s: string): string {
    if s == "" then "" else (if IsDelimiter(ifs, s[0]) then "" else [s[0]]) + Content(ifs, s[1..])
  }

  lemma {:induction false} BlanksHaveNoContent(ifs: string, s: string)
    ensures Content(ifs, SkipBlanks(ifs, s)) == Content(ifs, s)
  {
    if s != "" && IsBlank(ifs, s[0]) {
      BlanksHaveNoContent(ifs, s[1..]);
      assert "" + Content(ifs, s[1..]) == Content(ifs, s[1..]);
    }
  }

  lemma {:induction false} RestIsContent(ifs: string, cur: string, s: string, done: nat)
    ensures Concat(Rest(ifs, cur, s, None, done)) == cur + Content(ifs, s)
    decreases |s|
  {
    if s == "" {
      assert cur != "" ==> [cur][1..] == [];
    } else if IsDelimiter(ifs, s[0]) {
      var t := s[1..];
      var next := if IsBlank(ifs, s[0]) then SkipBlanks(ifs, t) else t;
      RestIsContent(ifs, "", next, done + 1);
      BlanksHaveNoContent(ifs, t);
      ConcatCons(cur, Rest(ifs, "", next, None, done + 1));
      NothingBefore(Content(ifs, next));
      NothingBefore(Content(ifs, t));
    } else {
      var t := Content(ifs, s[1..]);
      RestIsContent(ifs, cur + [s[0]], s[1..], done);
      assert cur + [s[0]] + t == cur + ([s[0]] + t);
    }
  }

  lemma ConcatCons(first: string, more: seq<string>)
    ensures Concat([first] + more) == first + Concat(more)
  {
    assert ([first] + more)[1..] == more;
  }

  lemma NothingBefore(s: string)
    ensures "" + s == s
  {
  }

  lemma {:induction false} DropHasNoContent(ifs: string, s: string)
    ensures Content(ifs, DropBlanks(ifs, s)) == Content(ifs, s)
  {
    if s != "" && IsBlank(ifs, s[|s| - 1]) {
      var init := s[..|s| - 1];
      DropHasNoContent(ifs, init);
      ContentConcat(ifs, init, [s[|s| - 1]]);
      assert init + [s[|s| - 1]] == s;
      assert Content(ifs, [s[|s| - 1]]) == "";
    }
  }

  lemma {:induction false} ContentConcat(ifs: string, a: string, b: string)
    ensures Content(ifs, a + b) == Content(ifs, a) + Content(ifs, b)
  {
    if a == "" {
      assert a + b == b;
    } else {
      assert (a + b)[1..] == a[1..] + b;
      ContentConcat(ifs, a[1..], b);
    }
  }

  /** Without a limit the fields hold exactly the characters of the line that are not separators, in order. */
  lemma FieldsAreContent(ifs: string, line: string)
    ensures Concat(Fields(ifs, line, None)) == Content(ifs, line)
  {
    RestIsContent(ifs, "", Trimmed(ifs, line), 0);
    DropHasNoContent(ifs, SkipBlanks(ifs, line));
    BlanksHaveNoContent(ifs, line);
  }

  // ----- Assigning fields to variables

  function JoinBySpace(fields: seq<string>): string {
    if fields == [] then "" else if |fields| == 1 then fields[0] else fields[0] + " " + JoinBySpace(fields[1..])
  }

  /** One field to each variable, what is left to the last. */
  function Assigned(fields: seq<string>, count: nat): (values: seq<string>)
    ensures |values| == count
    decreases count
  {
    if count == 0 then []
    else if fields == [] then [""] + Assigned([], count - 1)
    else if count == 1 then [JoinBySpace(fields)]
    else [fields[0]] + Assigned(fields[1..], count - 1)
  }

  method AssignToVariables(fields: seq<string>, count: nat) returns (values: seq<string>)
    ensures values == Assigned(fields, count)
  {
    values := [];
    var left := fields;
    ghost var want := Assigned(fields, count);
    for i := 0 to count
      invariant values + Assigned(left, count - i) == want
    {
      var value := "";
      if left != [] {
        if i == count - 1 {
          value, left := JoinBySpace(left), [];
        } else {
          value, left := left[0], left[1..];
        }
      }
      values := values + [value];
    }
  }

  /** Every variable gets its own field, and none gets two. */
  lemma {:induction false} NoFieldsAreJoined(fields: seq<string>, count: nat, i: nat)
    requires |fields| <= count && i < count
    ensures Assigned(fields, count)[i] == if i < |fields| then fields[i] else ""
    decreases count
  {
    if fields == [] {
      if i > 0 {
        NoFieldsAreJoined([], count - 1, i - 1);
      }
    } else if count > 1 && i > 0 {
      NoFieldsAreJoined(fields[1..], count - 1, i - 1);
    }
  }

  /** So reading a line into k variables joins nothing: the i-th gets the i-th field. */
  lemma EachVariableGetsItsField(ifs: string, line: string, count: nat, i: nat)
    requires count >= 1 && i < count
    ensures
      var fields := Fields(ifs, line, Some(count));
      |fields| <= count && Assigned(fields, count)[i] == if i < |fields| then fields[i] else ""
  {
    NoMoreThanTheLimit(ifs, "", Trimmed(ifs, line), count, 0);
    NoFieldsAreJoined(Fields(ifs, line, Some(count)), count, i);
  }

  /** The limited split and the unlimited one give the same fields to all variables but the last. */
  lemma OnlyTheLastDiffers(ifs: string, line: string, count: nat, i: nat)
    requires i < |Fields(ifs, line, Some(count))| && i + 1 < count
    ensures i < |Fields(ifs, line, None)| && Fields(ifs, line, None)[i] == Fields(ifs, line, Some(count))[i]
  {
    AgreesBelowTheLimit(ifs, "", Trimmed(ifs, line), count, 0, i);
  }

  /** A line that fills all the variables gives the last one the rest of it, separators and all. */
  lemma LastVariableGetsTheRest(ifs: string, line: string, count: nat)
    requires count >= 1 && |Fields(ifs, line, Some(count))| == count
    ensures IsSuffix(Last(Fields(ifs, line, Some(count))), Trimmed(ifs, line))
  {
    LastIsVerbatim(ifs, Trimmed(ifs, line), count);
  }
}
