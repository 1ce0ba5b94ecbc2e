/** The option string of getopts and the meaning it gives to each option character. */
module OptionSpecs {
  import opened Wrappers

  datatype OptionSpec = OptionSpec(defs: map<char, bool>, silentErrors: bool)

  predicate FirstAt(spec: string, c: char, i: int) {
    0 <= i < |spec| && spec[i] == c && c !in spec[..i]
  }

  /** c is an option, and takes an argument exactly when a colon follows its first occurrence. */
  ghost predicate Describes(spec: string, parsed: OptionSpec) {
    && (parsed.silentErrors <==> spec != [] && spec[0] == ':')
    && (forall c :: c in parsed.defs <==> c in spec && c != ':')
    && (forall c, i | FirstAt(spec, c, i) && c != ':' ::
          parsed.defs[c] <==> i + 1 < |spec| && spec[i + 1] == ':')
  }

  /** The description leaves no freedom. */
  lemma DescriptionUnique(spec: string, a: OptionSpec, b: OptionSpec)
    requires Describes(spec, a) && Describes(spec, b)
    ensures a == b
  {
    forall c | c in a.defs
      ensures a.defs[c] == b.defs[c]
    {
      var i := FirstIndex(spec, c);
      assert FirstAt(spec, c, i);
    }
    assert a.defs.Keys == b.defs.Keys;
  }

  ghost function FirstIndex(spec: string, c: char): (i: nat)
    requires c in spec
    ensures FirstAt(spec, c, i)
  {
    if spec[0] == c then 0
    else
      var i := 1 + FirstIndex(spec[1..], c);
      assert spec[..i] == [spec[0]] + spec[1..][..i - 1];
      i
  }

  ghost function SpecOf(spec: string): (parsed: OptionSpec)
    ensures Describes(spec, parsed)
  {
    OptionSpec(
      map c | c in spec && c != ':' :: var i := FirstIndex(spec, c); i + 1 < |spec| && spec[i + 1] == ':',
      spec != [] && spec[0] == ':')
  }

  /** Reads the option string left to right, remembering the last option still open to a colon. */
  method ParseOptionSpec(spec: string) returns (parsed: OptionSpec)
    ensures Describes(spec, parsed)
  {
    var defs: map<char, bool> := map[];
    var silent := false;
    var last: Option<char> := None;
    ghost var lastAt := 0;
    for n := 0 to |spec|
      invariant silent <==> n > 0 && spec[0] == ':'
      invariant forall c :: c in defs <==> c in spec[..n] && c != ':'
      invariant forall c, i | FirstAt(spec, c, i) && c != ':' && i < n ::
                  defs[c] <==> i + 1 < n && spec[i + 1] == ':'
      invariant last.Some? ==> last.value != ':' && lastAt < n && FirstAt(spec, last.value, lastAt)
      invariant last.Some? ==> forall j | lastAt < j < n :: spec[j] == ':'
      invariant last.None? && n > 0 ==> spec[n - 1] == ':' || spec[n - 1] in spec[..n - 1]
    {
      var c := spec[n];
      assert spec[..n + 1] == spec[..n] + [c];
      if c == ':' {
        if last.Some? {
          defs := defs[last.value := true];
        } else if defs == map[] {
          assert n > 0 ==> spec[0] in spec[..n];
          silent := true;
        }
      } else if c !in defs {
        defs := defs[c := false];
        last := Some(c);
        lastAt := n;
      } else {
        last := None;
      }
    }
    assert spec[..|spec|] == spec;
    parsed := OptionSpec(defs, silent);
  }
}

/** The one-shot parse: what a command's arguments say, read all at once. */
module OneShot {
  import opened Wrappers
  import opened OptionSpecs

  datatype Event =
    | Flag(option: char)
    | WithArgument(option: char, argument: string)
    | MissingArgument(option: char)
    | UnknownOption(option: char)

  /** Events, and how many arguments were consumed before the first operand. */
  datatype Parse = Parse(events: seq<Event>, consumed: nat)

  predicate IsCluster(arg: string) {
    arg != [] && arg[0] == '-' && arg != "-" && arg != "--"
  }

  /** The letters of one cluster; the last option may take its argument from the next string. */
  function ParseCluster(spec: OptionSpec, letters: string, following: seq<string>): (p: Parse)
    ensures p.consumed <= 1 && p.consumed <= |following|
  {
    if letters == [] then Parse([], 0)
    else
      var c := letters[0];
      if c in spec.defs && spec.defs[c] then
        if |letters| > 1 then Parse([WithArgument(c, letters[1..])], 0)
        else if following != [] then Parse([WithArgument(c, following[0])], 1)
        else Parse([MissingArgument(c)], 0)
      else
        var rest := ParseCluster(spec, letters[1..], following);
        var event := if c in spec.defs then Flag(c) else UnknownOption(c);
        Parse([event] + rest.events, rest.consumed)
  }

  function ParseArguments(spec: OptionSpec, args: seq<string>): (p: Parse)
    ensures p.consumed <= |args|
    decreases |args|, 0
  {
    if args == [] || !IsCluster(args[0]) then
      Parse([], if args != [] && args[0] == "--" then 1 else 0)
    else
      ParseFromLetters(spec, args[0][1..], args[1..])
  }

  /** Finishes a cluster, then goes on with the arguments after it. */
  function ParseFromLetters(spec: OptionSpec, letters: string, following: seq<string>): (p: Parse)
    ensures 1 <= p.consumed <= 1 + |following|
    decreases |following|, 1
  {
    var cluster := ParseCluster(spec, letters, following);
    var rest := ParseArguments(spec, following[cluster.consumed..]);
    Parse(cluster.events + rest.events, 1 + cluster.consumed + rest.consumed)
  }
}

/** The resumable parser, whose whole state lives in shell variables. */
module Getopts {
  import opened Wrappers
  import opened Decimal
  import opened OptionSpecs
  import opened OneShot

  const OPTIND := "OPTIND"
  const OPTARG := "OPTARG"
  const NEXT_CHAR := "__GETOPTS_NEXT_CHAR"
  const LAST_OPTIND := "__GETOPTS_LAST_OPTIND"
  const DEFAULT_NEXT_CHAR_INDEX: nat := 1
  const MAX_I32: int := 0x7fff_ffff
  const MAX_USIZE: int := 0xffff_ffff_ffff_ffff

  type Variables = map<string, string>

  predicate IsNameChar(c: char) {
    'a' <= c <= 'z' || 'A' <= c <= 'Z' || c == '_' || IsDigit(c)
  }

  predicate ValidVariableName(name: string) {
    name != [] && !IsDigit(name[0]) && forall i | 0 <= i < |name| :: IsNameChar(name[i])
  }

  function ReadI32(vars: Variables, name: string): Option<int> {
    if name in vars then ParseInt(vars[name], -MAX_I32 - 1, MAX_I32) else None
  }

  /** OPTIND as read at the start of a call: 1 when unset or not a number. */
  function SignedIndex(vars: Variables): int {
    var i := ReadI32(vars, OPTIND);
    if i.Some? then i.value else 1
  }

  function NextIndex(vars: Variables): nat {
    var i := SignedIndex(vars);
    if i < 1 then 1 else i
  }

  /** The saved position is dropped when OPTIND is not what the last call left. */
  function DropStaleCursor(vars: Variables): Variables {
    if ReadI32(vars, LAST_OPTIND) != Some(SignedIndex(vars)) then vars - {NEXT_CHAR} else vars
  }

  /** Position of the next character to look at in this argument. */
  function Cursor(vars: Variables, arg: string): nat {
    var saved := if NEXT_CHAR in vars then ParseInt(vars[NEXT_CHAR], 0, MAX_USIZE) else None;
    if saved.Some? && saved.value < |arg| then saved.value else DEFAULT_NEXT_CHAR_INDEX
  }

  datatype Result = Result(variableValue: string, optarg: Option<string>, optind: nat, found: bool, vars: Variables)

  datatype Resolved = Resolved(value: string, optarg: Option<string>, isLast: bool, index: nat)

  /** The argument of option c: the rest of this string, or the whole of the next one. */
  function ResolveArgument(spec: OptionSpec, c: char, arg: string, args: seq<string>, k: nat, isLast: bool, index: nat): Resolved
    requires 1 <= index <= |args| && k < |arg|
  {
    if isLast then
      if index >= |args| then
        if spec.silentErrors then Resolved(":", Some([c]), true, index) else Resolved("?", None, true, index)
      else Resolved([c], Some(args[index]), true, index + 1)
    else Resolved([c], Some(arg[k + 1..]), true, index)
  }

  function ParseNextOption(spec: OptionSpec, args: seq<string>, index: nat, vars: Variables): Result
    requires index >= 1
  {
    if index > |args| then Result("?", None, |args| + 1, false, vars)
    else
      var arg := args[index - 1];
      if !IsCluster(arg) then Result("?", None, if arg == "--" then index + 1 else index, false, vars)
      else
        var k := Cursor(vars, arg);
        var c := arg[k];
        var isLast := k == |arg| - 1;
        var r :=
          if c in spec.defs then
            if spec.defs[c] then ResolveArgument(spec, c, arg, args, k, isLast, index)
            else Resolved([c], None, isLast, index)
          else Resolved("?", if spec.silentErrors then Some([c]) else None, isLast, index);
        if r.isLast then Result(r.value, r.optarg, r.index + 1, true, vars - {NEXT_CHAR})
        else Result(r.value, r.optarg, r.index, true, vars[NEXT_CHAR := PrintNat(k + 1)])
  }

  function UpdateVariables(name: string, r: Result): Variables {
    var v := r.vars[name := r.variableValue];
    var w := match r.optarg { case Some(s) => v[OPTARG := s] case None => v - {OPTARG} };
    w[OPTIND := PrintNat(r.optind)][LAST_OPTIND := PrintNat(r.optind)]
  }

  /** One call: the variables it leaves, and whether it found an option. */
  function Call(spec: OptionSpec, name: string, args: seq<string>, vars: Variables): (Variables, bool) {
    var r := ParseNextOption(spec, args, NextIndex(vars), DropStaleCursor(vars));
    (UpdateVariables(name, r), r.found)
  }

  class Shell {
    var vars: Variables
    var positional: seq<string>

    constructor (vars: Variables, positional: seq<string>)
      ensures this.vars == vars && this.positional == positional
    {
      this.vars := vars;
      this.positional := positional;
    }

    /** The builtin: exit status 0 when an option was found, 1 otherwise. */
    method Execute(optionsString: string, name: string, explicitArgs: seq<string>) returns (exitCode: int)
      modifies this`vars
      ensures !ValidVariableName(name) ==> exitCode == 1 && vars == old(vars)
      ensures ValidVariableName(name) ==>
                var args := if explicitArgs != [] then explicitArgs else positional;
                var (after, found) := Call(SpecOf(optionsString), name, args, old(vars));
                vars == after && exitCode == if found then 0 else 1
    {
      if !ValidVariableName(name) {
        return 1;
      }
      var spec := ParseOptionSpec(optionsString);
      DescriptionUnique(optionsString, spec, SpecOf(optionsString));
      var nextIndexSigned := SignedIndex(vars);
      if ReadI32(vars, LAST_OPTIND) != Some(nextIndexSigned) {
        vars := vars - {NEXT_CHAR};
      }
      assert vars == DropStaleCursor(old(vars));
      var nextIndex := if nextIndexSigned < 1 then 1 else nextIndexSigned;
      var args := if explicitArgs != [] then explicitArgs else positional;
      var value, optarg, optind, found := NextOption(spec, args, nextIndex);
      ghost var r := Result(value, optarg, optind, found, vars);
      assert Call(spec, name, args, old(vars)) == (UpdateVariables(name, r), found);
      vars := vars[name := value];
      match optarg {
        case Some(s) => vars := vars[OPTARG := s];
        case None => vars := vars - {OPTARG};
      }
      vars := vars[OPTIND := PrintNat(optind)];
      vars := vars[LAST_OPTIND := PrintNat(optind)];
      assert vars == UpdateVariables(name, r);
      exitCode := if found then 0 else 1;
    }

    method NextOption(spec: OptionSpec, args: seq<string>, nextIndex: nat)
      returns (value: string, optarg: Option<string>, optind: nat, found: bool)
      requires nextIndex >= 1
      modifies this`vars
      ensures Result(value, optarg, optind, found, vars) == ParseNextOption(spec, args, nextIndex, old(vars))
    {
      if nextIndex > |args| {
        return "?", None, |args| + 1, false;
      }
      var arg := args[nextIndex - 1];
      if arg == [] || arg[0] != '-' || arg == "--" || arg == "-" {
        return "?", None, if arg == "--" then nextIndex + 1 else nextIndex, false;
      }
      var nextChar := Cursor(vars, arg);
      var c := arg[nextChar];
      var isLast := nextChar == |arg| - 1;
      optind := nextIndex;
      if c in spec.defs {
        value, optarg := [c], None;
        if spec.defs[c] {
          var r := ResolveArgument(spec, c, arg, args, nextChar, isLast, nextIndex);
          value, optarg, isLast, optind := r.value, r.optarg, r.isLast, r.index;
        }
      } else {
        value, optarg := "?", if spec.silentErrors then Some([c]) else None;
      }
      if isLast {
        vars := vars - {NEXT_CHAR};
        optind := optind + 1;
      } else {
        vars := vars[NEXT_CHAR := PrintNat(nextChar + 1)];
      }
      found := true;
    }
  }
}
