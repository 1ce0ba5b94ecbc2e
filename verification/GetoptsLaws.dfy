/** Calling the resumable parser until it stops delivers the one-shot parse. */
module GetoptsLaws {
  import opened Wrappers
  import opened Decimal
  import opened OptionSpecs
  import opened OneShot
  import opened Getopts

  /** The target variable is not one the builtin keeps its own state in. */
  predicate Ours(name: string) {
    name != OPTIND && name != OPTARG && name != NEXT_CHAR && name != LAST_OPTIND
  }

  /** Every index the builtin stores fits the machine type it is read back into. */
  predicate Addressable(args: seq<string>) {
    |args| < MAX_I32 && forall i | 0 <= i < |args| :: |args[i]| <= MAX_USIZE
  }

  /** How a caller sees an event: the target variable and OPTARG. */
  datatype View = View(value: string, optarg: Option<string>)

  function Report(spec: OptionSpec, e: Event): View {
    match e
    case Flag(c) => View([c], None)
    case WithArgument(c, a) => View([c], Some(a))
    case MissingArgument(c) => if spec.silentErrors then View(":", Some([c])) else View("?", None)
    case UnknownOption(c) => View("?", if spec.silentErrors then Some([c]) else None)
  }

  predicate Shows(vars: Variables, name: string, view: View) {
    && name in vars && vars[name] == view.value
    && match view.optarg
       case Some(s) => OPTARG in vars && vars[OPTARG] == s
       case None => OPTARG !in vars
  }

  /** Where the next call will look inside the current argument. */
  function Position(vars: Variables, arg: string): nat {
    Cursor(DropStaleCursor(vars), arg)
  }

  /** The one-shot parse of everything the state has not delivered yet. */
  function Remaining(spec: OptionSpec, args: seq<string>, vars: Variables): Parse {
    var i := NextIndex(vars);
    if i > |args| then Parse([], 0)
    else if !IsCluster(args[i - 1]) then ParseArguments(spec, args[i - 1..])
    else ParseFromLetters(spec, args[i - 1][Position(vars, args[i - 1])..], args[i..])
  }

  /** Arguments from OPTIND on, and characters left in the current cluster. */
  function Left(args: seq<string>, vars: Variables): (int, nat) {
    var i := NextIndex(vars);
    (|args| + 1 - i, if i <= |args| && IsCluster(args[i - 1]) then |args[i - 1]| - Position(vars, args[i - 1]) else 0)
  }

  /** A number stored in OPTIND is read back as itself, or as 1 when it does not fit 32 bits. */
  lemma OptindReadBack(vars: Variables, n: nat)
    requires OPTIND in vars && vars[OPTIND] == PrintNat(n)
    ensures SignedIndex(vars) == if n <= MAX_I32 then n else 1
  {
    ReadsBack(n, -MAX_I32 - 1, MAX_I32);
  }

  /** After a call that found an option, the state is its result: OPTIND and the saved position. */
  lemma StateAfter(name: string, r: Result, arg: string)
    requires Ours(name) && 1 <= r.optind <= MAX_I32
    ensures
      var after := UpdateVariables(name, r);
      && NextIndex(after) == r.optind
      && Position(after, arg) == Cursor(r.vars, arg)
      && Shows(after, name, View(r.variableValue, r.optarg))
      && (NEXT_CHAR in after <==> NEXT_CHAR in r.vars)
  {
    var after := UpdateVariables(name, r);
    OptindReadBack(after, r.optind);
    assert ReadI32(after, LAST_OPTIND) == ReadI32(after, OPTIND);
    ReadsBack(r.optind, -MAX_I32 - 1, MAX_I32);
    assert DropStaleCursor(after) == after;
  }

  lemma StateKept(name: string, r: Result)
    requires Ours(name) && 1 <= r.optind <= MAX_I32
    ensures
      var after := UpdateVariables(name, r);
      && ReadI32(after, LAST_OPTIND) == Some(r.optind)
      && (NEXT_CHAR in after <==> NEXT_CHAR in r.vars)
      && (NEXT_CHAR in after ==> after[NEXT_CHAR] == r.vars[NEXT_CHAR])
  {
    ReadsBack(r.optind, -MAX_I32 - 1, MAX_I32);
  }

  /** With no saved position the state stands at the start of an argument. */
  lemma RemainingAtStart(spec: OptionSpec, args: seq<string>, vars: Variables)
    requires NextIndex(vars) <= |args| + 1 && NEXT_CHAR !in DropStaleCursor(vars)
    ensures Remaining(spec, args, vars) == ParseArguments(spec, args[NextIndex(vars) - 1..])
  {
    var i := NextIndex(vars);
    if i <= |args| {
      assert args[i - 1..][1..] == args[i..];
    }
  }

  /** Taking one letter that has no argument off a cluster. */
  lemma PeelLetter(spec: OptionSpec, letters: string, following: seq<string>)
    requires letters != [] && !(letters[0] in spec.defs && spec.defs[letters[0]])
    ensures
      var whole, rest := ParseFromLetters(spec, letters, following), ParseFromLetters(spec, letters[1..], following);
      && whole.events == [if letters[0] in spec.defs then Flag(letters[0]) else UnknownOption(letters[0])] + rest.events
      && whole.consumed == rest.consumed
  {
  }

  /** A finished cluster leaves the parse of the arguments after it. */
  lemma NoLetters(spec: OptionSpec, following: seq<string>)
    ensures
      var p, rest := ParseFromLetters(spec, [], following), ParseArguments(spec, following);
      p.events == rest.events && p.consumed == 1 + rest.consumed
  {
    assert following[0..] == following;
  }

  /** A saved position lies inside the cluster at OPTIND, and is where the next call looks. */
  predicate SavedInside(args: seq<string>, vars: Variables) {
    NEXT_CHAR in vars ==>
      && NextIndex(vars) <= |args|
      && var arg, saved := args[NextIndex(vars) - 1], ParseInt(vars[NEXT_CHAR], 0, MAX_USIZE);
         IsCluster(arg) && saved.Some? && 1 <= saved.value < |arg| && Position(vars, arg) == saved.value
  }

  /** What one call does to the remaining parse. */
  ghost predicate Delivers(spec: OptionSpec, name: string, args: seq<string>, vars: Variables) {
    var rem := Remaining(spec, args, vars);
    var (after, found) := Call(spec, name, args, vars);
    var rem' := Remaining(spec, args, after);
    && found && rem.events != []
    && Shows(after, name, Report(spec, rem.events[0]))
    && rem'.events == rem.events[1..]
    && NextIndex(after) + rem'.consumed == NextIndex(vars) + rem.consumed
    && 1 <= NextIndex(after) <= |args| + 1
    && Falls(Left(args, after), Left(args, vars))
  }

  predicate Falls(a: (int, nat), b: (int, nat)) {
    0 <= a.0 && (a.0 < b.0 || (a.0 == b.0 && a.1 < b.1))
  }

  ghost predicate Stops(spec: OptionSpec, name: string, args: seq<string>, vars: Variables) {
    var rem := Remaining(spec, args, vars);
    var (after, found) := Call(spec, name, args, vars);
    && !found && rem.events == []
    && Shows(after, name, View("?", None))
    && NextIndex(after) == if NextIndex(vars) <= |args| then NextIndex(vars) + rem.consumed else |args| + 1
  }

  /** One call delivers the first remaining event, or stops when there is none. */
  lemma CallDelivers(spec: OptionSpec, name: string, args: seq<string>, vars: Variables)
    requires Ours(name) && Addressable(args)
    ensures if Remaining(spec, args, vars).events != [] then Delivers(spec, name, args, vars) && SavedInside(args, Call(spec, name, args, vars).0)
            else Stops(spec, name, args, vars)
  {
    var i := NextIndex(vars);
    var r := ParseNextOption(spec, args, i, DropStaleCursor(vars));
    if i > |args| || !IsCluster(args[i - 1]) {
      StateAfter(name, r, "");
    } else {
      ClusterCallDelivers(spec, name, args, vars);
      ClusterCallSaves(spec, name, args, vars, args[i - 1], Position(vars, args[i - 1]));
    }
  }

  lemma ClusterCallDelivers(spec: OptionSpec, name: string, args: seq<string>, vars: Variables)
    requires Ours(name) && Addressable(args)
    requires NextIndex(vars) <= |args| && IsCluster(args[NextIndex(vars) - 1])
    ensures Delivers(spec, name, args, vars)
  {
    var arg := args[NextIndex(vars) - 1];
    var k := Position(vars, arg);
    if arg[k] in spec.defs && spec.defs[arg[k]] {
      ArgumentCallDelivers(spec, name, args, vars, arg, k);
    } else {
      LetterCallDelivers(spec, name, args, vars, arg, k);
    }
  }

  /** An option with an argument ends its string; what it reports is the cluster's only event. */
  lemma ArgumentStep(spec: OptionSpec, args: seq<string>, vars: Variables, i: nat, arg: string, k: nat)
    requires 1 <= i <= |args| && args[i - 1] == arg && IsCluster(arg) && k == Cursor(vars, arg)
    requires arg[k] in spec.defs && spec.defs[arg[k]]
    ensures
      var r := ParseNextOption(spec, args, i, vars);
      var cluster := ParseCluster(spec, arg[k..], args[i..]);
      && |cluster.events| == 1 && r.found
      && View(r.variableValue, r.optarg) == Report(spec, cluster.events[0])
      && r.optind == i + 1 + cluster.consumed
      && NEXT_CHAR !in r.vars
  {
    assert arg[k..][1..] == arg[k + 1..];
  }

  lemma ArgumentCallDelivers(spec: OptionSpec, name: string, args: seq<string>, vars: Variables, arg: string, k: nat)
    requires Ours(name) && Addressable(args)
    requires NextIndex(vars) <= |args| && args[NextIndex(vars) - 1] == arg && IsCluster(arg)
    requires k == Position(vars, arg) && arg[k] in spec.defs && spec.defs[arg[k]]
    ensures Delivers(spec, name, args, vars)
  {
    var i := NextIndex(vars);
    var r := ParseNextOption(spec, args, i, DropStaleCursor(vars));
    var after := UpdateVariables(name, r);
    ArgumentStep(spec, args, DropStaleCursor(vars), i, arg, k);
    StateAfter(name, r, arg);
    var cluster := ParseCluster(spec, arg[k..], args[i..]);
    var rest := ParseArguments(spec, args[r.optind - 1..]);
    assert Remaining(spec, args, after) == rest by { RemainingAtStart(spec, args, after); }
    assert args[i..][cluster.consumed..] == args[r.optind - 1..];
    assert Remaining(spec, args, vars) == Parse(cluster.events + rest.events, 1 + cluster.consumed + rest.consumed);
  }

  /** A letter without an argument: the position moves on, or the string is finished. */
  lemma LetterStep(spec: OptionSpec, args: seq<string>, vars: Variables, i: nat, arg: string, k: nat)
    requires 1 <= i <= |args| && args[i - 1] == arg && IsCluster(arg) && k == Cursor(vars, arg)
    requires !(arg[k] in spec.defs && spec.defs[arg[k]]) && |arg| <= MAX_USIZE
    ensures
      var r := ParseNextOption(spec, args, i, vars);
      var event := if arg[k] in spec.defs then Flag(arg[k]) else UnknownOption(arg[k]);
      && r.found && View(r.variableValue, r.optarg) == Report(spec, event)
      && if k + 1 == |arg| then r.optind == i + 1 && NEXT_CHAR !in r.vars
         else r.optind == i && Cursor(r.vars, arg) == k + 1
  {
    ReadsBack(k + 1, 0, MAX_USIZE);
  }

  /** The position that a letter leaves. */
  lemma LetterSaves(spec: OptionSpec, args: seq<string>, vars: Variables, i: nat, arg: string, k: nat)
    requires 1 <= i <= |args| && args[i - 1] == arg && IsCluster(arg) && k == Cursor(vars, arg)
    requires !(arg[k] in spec.defs && spec.defs[arg[k]]) && k + 1 < |arg| <= MAX_USIZE
    ensures
      var r := ParseNextOption(spec, args, i, vars);
      NEXT_CHAR in r.vars && ParseInt(r.vars[NEXT_CHAR], 0, MAX_USIZE) == Some(k + 1)
  {
    ReadsBack(k + 1, 0, MAX_USIZE);
  }

  lemma LetterCallDelivers(spec: OptionSpec, name: string, args: seq<string>, vars: Variables, arg: string, k: nat)
    requires Ours(name) && Addressable(args)
    requires NextIndex(vars) <= |args| && args[NextIndex(vars) - 1] == arg && IsCluster(arg)
    requires k == Position(vars, arg) && !(arg[k] in spec.defs && spec.defs[arg[k]])
    ensures Delivers(spec, name, args, vars)
  {
    var i := NextIndex(vars);
    var r := ParseNextOption(spec, args, i, DropStaleCursor(vars));
    var after := UpdateVariables(name, r);
    LetterStep(spec, args, DropStaleCursor(vars), i, arg, k);
    StateAfter(name, r, arg);
    RemainingAfterLetter(spec, args, after, i, arg, k);
    assert arg[k..][1..] == arg[k + 1..];
    PeelLetter(spec, arg[k..], args[i..]);
    assert Remaining(spec, args, vars) == ParseFromLetters(spec, arg[k..], args[i..]);
  }

  lemma ClusterCallSaves(spec: OptionSpec, name: string, args: seq<string>, vars: Variables, arg: string, k: nat)
    requires Ours(name) && Addressable(args)
    requires NextIndex(vars) <= |args| && args[NextIndex(vars) - 1] == arg && IsCluster(arg)
    requires k == Position(vars, arg)
    ensures SavedInside(args, Call(spec, name, args, vars).0)
  {
    var i := NextIndex(vars);
    var r := ParseNextOption(spec, args, i, DropStaleCursor(vars));
    if arg[k] in spec.defs && spec.defs[arg[k]] {
      ArgumentStep(spec, args, DropStaleCursor(vars), i, arg, k);
      StateAfter(name, r, arg);
    } else {
      LetterStep(spec, args, DropStaleCursor(vars), i, arg, k);
      StateAfter(name, r, arg);
      StateKept(name, r);
      if k + 1 < |arg| {
        LetterSaves(spec, args, DropStaleCursor(vars), i, arg, k);
        SavedLetter(args, UpdateVariables(name, r), i, arg, k + 1);
      }
    }
  }

  lemma SavedLetter(args: seq<string>, after: Variables, i: nat, arg: string, v: nat)
    requires 1 <= i <= |args| && args[i - 1] == arg && IsCluster(arg) && 1 <= v < |arg|
    requires NextIndex(after) == i && Position(after, arg) == v
    requires NEXT_CHAR in after && ParseInt(after[NEXT_CHAR], 0, MAX_USIZE) == Some(v)
    ensures SavedInside(args, after)
  {
  }

  lemma RemainingAfterLetter(spec: OptionSpec, args: seq<string>, after: Variables, i: nat, arg: string, k: nat)
    requires 1 <= i <= |args| && args[i - 1] == arg && IsCluster(arg) && k < |arg|
    requires if k + 1 == |arg| then NextIndex(after) == i + 1 && NEXT_CHAR !in after
             else NextIndex(after) == i && Position(after, arg) == k + 1
    ensures
      var rest, rem := ParseFromLetters(spec, arg[k + 1..], args[i..]), Remaining(spec, args, after);
      && rem.events == rest.events
      && NextIndex(after) + rem.consumed == i + rest.consumed
      && Falls(Left(args, after), (|args| + 1 - i, |arg| - k))
  {
    if k + 1 == |arg| {
      assert arg[k + 1..] == [];
      NoLetters(spec, args[i..]);
      RemainingAtStart(spec, args, after);
    }
  }

  /** The variables after n calls. */
  function After(spec: OptionSpec, name: string, args: seq<string>, vars: Variables, n: nat): Variables {
    if n == 0 then vars else Call(spec, name, args, After(spec, name, args, vars, n - 1)).0
  }

  /** After n calls the first n events have been delivered, in order. */
  lemma {:induction false} CallsDeliverInOrder(spec: OptionSpec, name: string, args: seq<string>, vars: Variables, n: nat)
    requires Ours(name) && Addressable(args)
    requires n <= |Remaining(spec, args, vars).events|
    ensures
      var rem, now := Remaining(spec, args, vars), After(spec, name, args, vars, n);
      && Remaining(spec, args, now).events == rem.events[n..]
      && NextIndex(now) + Remaining(spec, args, now).consumed == NextIndex(vars) + rem.consumed
      && (n > 0 ==> 1 <= NextIndex(now) <= |args| + 1 && Shows(now, name, Report(spec, rem.events[n - 1])))
  {
    if n > 0 {
      var rem, before := Remaining(spec, args, vars), After(spec, name, args, vars, n - 1);
      CallsDeliverInOrder(spec, name, args, vars, n - 1);
      assert Remaining(spec, args, before).events == rem.events[n - 1..];
      CallDelivers(spec, name, args, before);
      assert Delivers(spec, name, args, before);
      assert rem.events[n - 1..][1..] == rem.events[n..];
    }
  }

  /**
   * From any state whatever, a run of calls delivers exactly the events of the one-shot parse of
   * what remains, then stops with OPTIND at the first operand.
   */
  lemma CallsAreOneShot(spec: OptionSpec, name: string, args: seq<string>, vars: Variables)
    requires Ours(name) && Addressable(args)
    ensures
      var rem := Remaining(spec, args, vars);
      && (forall n | 0 <= n < |rem.events| ::
            && Call(spec, name, args, After(spec, name, args, vars, n)).1
            && Shows(After(spec, name, args, vars, n + 1), name, Report(spec, rem.events[n])))
      && Stops(spec, name, args, After(spec, name, args, vars, |rem.events|))
      && NextIndex(After(spec, name, args, vars, |rem.events| + 1)) ==
         if NextIndex(vars) <= |args| then NextIndex(vars) + rem.consumed else |args| + 1
  {
    var rem := Remaining(spec, args, vars);
    forall n | 0 <= n < |rem.events|
      ensures Call(spec, name, args, After(spec, name, args, vars, n)).1
      ensures Shows(After(spec, name, args, vars, n + 1), name, Report(spec, rem.events[n]))
    {
      CallsDeliverInOrder(spec, name, args, vars, n);
      CallDelivers(spec, name, args, After(spec, name, args, vars, n));
      CallsDeliverInOrder(spec, name, args, vars, n + 1);
    }
    CallsDeliverInOrder(spec, name, args, vars, |rem.events|);
    CallDelivers(spec, name, args, After(spec, name, args, vars, |rem.events|));
  }

  /** A script that starts with OPTIND at 1 and no saved position in the first argument. */
  predicate StartsFresh(args: seq<string>, vars: Variables) {
    NextIndex(vars) == 1 && (args != [] ==> Position(vars, args[0]) == 1)
  }

  lemma FreshStartParsesEverything(spec: OptionSpec, args: seq<string>, vars: Variables)
    requires StartsFresh(args, vars)
    ensures Remaining(spec, args, vars) == ParseArguments(spec, args)
  {
    assert args[0..] == args;
  }

  /** No letter from a to b takes an argument. */
  predicate OnlyFlags(spec: OptionSpec, arg: string, a: nat, b: nat)
    requires b <= |arg|
  {
    forall j | a <= j < b :: !(arg[j] in spec.defs && spec.defs[arg[j]])
  }

  /** A parse that starts later in a cluster has as many events less. */
  lemma {:induction false} SkippedLetters(spec: OptionSpec, arg: string, a: nat, b: nat, following: seq<string>)
    requires a <= b <= |arg| && OnlyFlags(spec, arg, a, b)
    ensures |ParseFromLetters(spec, arg[a..], following).events| == b - a + |ParseFromLetters(spec, arg[b..], following).events|
    ensures |ParseCluster(spec, arg[a..], following).events| == b - a + |ParseCluster(spec, arg[b..], following).events|
    decreases b - a
  {
    if a < b {
      PeelLetter(spec, arg[a..], following);
      assert arg[a..][1..] == arg[a + 1..];
      SkippedLetters(spec, arg, a + 1, b, following);
    }
  }

  /**
   * Setting OPTIND to 1 restarts the parse unless the last call left it at 1 inside the first cluster;
   * any position a call can have saved there has only letters without an argument before it.
   */
  lemma RestartIsNoticed(spec: OptionSpec, args: seq<string>, vars: Variables)
    requires args != []
    requires IsCluster(args[0]) ==> var k := Cursor(vars, args[0]); OnlyFlags(spec, args[0], if k < 1 then k else 1, if k < 1 then 1 else k)
    ensures Remaining(spec, args, vars[OPTIND := "1"]) == ParseArguments(spec, args) <==>
            !(IsCluster(args[0]) && ReadI32(vars, LAST_OPTIND) == Some(1) && Cursor(vars, args[0]) != 1)
  {
    var restarted, arg := vars[OPTIND := "1"], args[0];
    assert PrintNat(1) == "1";
    OptindReadBack(restarted, 1);
    assert args[0..] == args;
    if IsCluster(arg) && ReadI32(vars, LAST_OPTIND) == Some(1) {
      assert DropStaleCursor(restarted) == restarted;
      var k := Cursor(vars, arg);
      assert k == Position(restarted, arg);
      SkippedLetters(spec, arg, if k < 1 then k else 1, if k < 1 then 1 else k, args[1..]);
    }
  }

  /** How many calls the first argument keeps busy. */
  function FirstEvents(spec: OptionSpec, args: seq<string>): nat {
    if args == [] || !IsCluster(args[0]) then 0 else |ParseCluster(spec, args[0][1..], args[1..]).events|
  }

  /** Where the calls stand while the first cluster is not finished. */
  predicate InsideFirst(spec: OptionSpec, args: seq<string>, vars: Variables, n: nat) {
    && args != [] && IsCluster(args[0]) && 1 + n < |args[0]|
    && NextIndex(vars) == 1 && Position(vars, args[0]) == 1 + n
    && OnlyFlags(spec, args[0], 1, 1 + n)
    && (n > 0 ==> ReadI32(vars, LAST_OPTIND) == Some(1) && Cursor(vars, args[0]) == 1 + n)
  }

  /** Where they stand afterwards. */
  predicate PastFirst(vars: Variables) {
    NextIndex(vars) >= 2 && ReadI32(vars, LAST_OPTIND) == Some(NextIndex(vars))
  }

  /** How far the letters go: an argument or the last letter is the end. */
  lemma FirstEnds(spec: OptionSpec, args: seq<string>, n: nat)
    requires args != [] && IsCluster(args[0]) && 1 + n < |args[0]| && OnlyFlags(spec, args[0], 1, 1 + n)
    ensures n < FirstEvents(spec, args)
    ensures
      var arg, k := args[0], 1 + n;
      n + 1 < FirstEvents(spec, args) <==> k + 1 < |arg| && !(arg[k] in spec.defs && spec.defs[arg[k]])
  {
    var arg, k := args[0], 1 + n;
    SkippedLetters(spec, arg, 1, k, args[1..]);
    if !(arg[k] in spec.defs && spec.defs[arg[k]]) {
      SkippedLetters(spec, arg, k, k + 1, args[1..]);
      OneEach(spec, arg[k + 1..], args[1..]);
    }
  }

  /** One more call in the first cluster: its next letter, or its end. */
  lemma NextInside(spec: OptionSpec, name: string, args: seq<string>, vars: Variables, n: nat)
    requires Ours(name) && Addressable(args) && InsideFirst(spec, args, vars, n)
    ensures Stands(spec, args, Call(spec, name, args, vars).0, n + 1)
  {
    var arg, k, state := args[0], 1 + n, DropStaleCursor(vars);
    var r := ParseNextOption(spec, args, 1, state);
    FirstEnds(spec, args, n);
    if arg[k] in spec.defs && spec.defs[arg[k]] {
      ArgumentStep(spec, args, state, 1, arg, k);
    } else {
      LetterStep(spec, args, state, 1, arg, k);
    }
    StateAfter(name, r, arg);
    StateKept(name, r);
  }

  lemma OneEach(spec: OptionSpec, letters: string, following: seq<string>)
    ensures |ParseCluster(spec, letters, following).events| == 0 <==> letters == []
  {
  }

  lemma NextPast(spec: OptionSpec, name: string, args: seq<string>, vars: Variables)
    requires Ours(name) && Addressable(args) && args != [] && NextIndex(vars) >= 2
    ensures PastFirst(Call(spec, name, args, vars).0)
  {
    var r := ParseNextOption(spec, args, NextIndex(vars), DropStaleCursor(vars));
    StateAfter(name, r, "");
    StateKept(name, r);
  }

  /** What holds at the start and is kept by every call holds after n calls. */
  lemma {:induction false} CallsKeep(spec: OptionSpec, name: string, args: seq<string>, stands: (Variables, nat) -> bool, vars: Variables, n: nat)
    requires stands(vars, 0)
    requires forall v: Variables, k: nat | stands(v, k) :: stands(Call(spec, name, args, v).0, k + 1)
    ensures stands(After(spec, name, args, vars, n), n)
  {
    if n > 0 {
      CallsKeep(spec, name, args, stands, vars, n - 1);
    }
  }

  /** After n calls from a fresh start. */
  lemma FirstClusterTakes(spec: OptionSpec, name: string, args: seq<string>, vars: Variables, n: nat)
    requires Ours(name) && Addressable(args) && StartsFresh(args, vars)
    requires args != [] && IsCluster(args[0])
    ensures Stands(spec, args, After(spec, name, args, vars, n), n)
  {
    StartsInside(spec, args, vars);
    forall v: Variables, k: nat | Stands(spec, args, v, k)
      ensures Stands(spec, args, Call(spec, name, args, v).0, k + 1)
    {
      NextTakes(spec, name, args, v, k);
    }
    CallsKeep(spec, name, args, (v: Variables, k: nat) => Stands(spec, args, v, k), vars, n);
  }

  lemma StartsInside(spec: OptionSpec, args: seq<string>, vars: Variables)
    requires StartsFresh(args, vars) && args != [] && IsCluster(args[0])
    ensures Stands(spec, args, vars, 0)
  {
    OneEach(spec, args[0][1..], args[1..]);
  }

  predicate Stands(spec: OptionSpec, args: seq<string>, vars: Variables, n: nat) {
    if n < FirstEvents(spec, args) then InsideFirst(spec, args, vars, n) else PastFirst(vars)
  }

  lemma NextTakes(spec: OptionSpec, name: string, args: seq<string>, before: Variables, n: nat)
    requires Ours(name) && Addressable(args) && args != [] && Stands(spec, args, before, n)
    ensures Stands(spec, args, Call(spec, name, args, before).0, n + 1)
  {
    if n < FirstEvents(spec, args) {
      NextInside(spec, name, args, before, n);
    } else {
      NextPast(spec, name, args, before);
    }
  }

  /**
   * Restarting after calls from a fresh start parses everything again if and only if these have
   * finished the first argument: as many calls as it has events.
   */
  lemma RestartAfterCalls(spec: OptionSpec, name: string, args: seq<string>, vars: Variables, n: nat)
    requires Ours(name) && Addressable(args) && StartsFresh(args, vars) && n > 0
    ensures Remaining(spec, args, After(spec, name, args, vars, n)[OPTIND := "1"]) == ParseArguments(spec, args) <==>
            n >= FirstEvents(spec, args)
  {
    var now := After(spec, name, args, vars, n);
    if args == [] {
      assert PrintNat(1) == "1";
      OptindReadBack(now[OPTIND := "1"], 1);
    } else if IsCluster(args[0]) {
      FirstClusterTakes(spec, name, args, vars, n);
      if n < FirstEvents(spec, args) {
        RestartInside(spec, args, now, n);
      } else {
        RestartPast(spec, args, now);
      }
    } else {
      RestartIsNoticed(spec, args, now);
    }
  }

  lemma RestartPast(spec: OptionSpec, args: seq<string>, now: Variables)
    requires args != [] && PastFirst(now)
    ensures Remaining(spec, args, now[OPTIND := "1"]) == ParseArguments(spec, args)
  {
    var restarted := now[OPTIND := "1"];
    assert PrintNat(1) == "1";
    OptindReadBack(restarted, 1);
    assert ReadI32(restarted, LAST_OPTIND) == ReadI32(now, LAST_OPTIND);
    RemainingAtStart(spec, args, restarted);
    assert args[0..] == args;
  }

  lemma RestartInside(spec: OptionSpec, args: seq<string>, now: Variables, n: nat)
    requires InsideFirst(spec, args, now, n) && n > 0
    ensures Remaining(spec, args, now[OPTIND := "1"]) != ParseArguments(spec, args)
  {
    RestartIsNoticed(spec, args, now);
  }

  /** A restart in the middle of the first cluster goes unnoticed: the second letter comes again, not the first. */
  lemma RestartInsideFirstCluster()
    ensures
      var spec := OptionSpec(map['a' := false, 'b' := false], false);
      var first := Call(spec, "opt", ["-ab"], map[]).0;
      var again := Call(spec, "opt", ["-ab"], first[OPTIND := "1"]).0;
      && Shows(first, "opt", Report(spec, Flag('a')))
      && Shows(again, "opt", Report(spec, Flag('b')))
      && ParseArguments(spec, ["-ab"]).events == [Flag('a'), Flag('b')]
  {
    var spec := OptionSpec(map['a' := false, 'b' := false], false);
    var args := ["-ab"];
    TwoFlags(spec);
    FirstCallInside(spec);
    var first := Call(spec, "opt", args, map[]).0;
    CallDelivers(spec, "opt", args, first);
  }

  lemma TwoFlags(spec: OptionSpec)
    requires spec == OptionSpec(map['a' := false, 'b' := false], false)
    ensures ParseFromLetters(spec, "b", []).events == [Flag('b')]
    ensures ParseArguments(spec, ["-ab"]).events == [Flag('a'), Flag('b')]
  {
    assert "ab"[1..] == "b" && "b"[1..] == "" && "-ab"[1..] == "ab";
    NoLetters(spec, []);
    PeelLetter(spec, "b", []);
    PeelLetter(spec, "ab", []);
    assert ["-ab"][1..] == [];
  }

  lemma FirstCallInside(spec: OptionSpec)
    requires spec == OptionSpec(map['a' := false, 'b' := false], false)
    ensures
      var first := Call(spec, "opt", ["-ab"], map[]).0;
      && Shows(first, "opt", View("a", None))
      && first[OPTIND := "1"] == first
      && Remaining(spec, ["-ab"], first) == ParseFromLetters(spec, "b", [])
  {
    var args := ["-ab"];
    var first := Call(spec, "opt", args, map[]).0;
    var r := ParseNextOption(spec, args, 1, DropStaleCursor(map[]));
    assert PrintNat(1) == "1";
    StateAfter("opt", r, "-ab");
    ReadsBack(2, 0, MAX_USIZE);
    assert "-ab"[2..] == "b" && args[1..] == [];
  }
}
