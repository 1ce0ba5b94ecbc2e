/** Expressions of the shell's arithmetic and what its operators compute. */
module ArithmeticSyntax {
  import opened Words
  import opened WordOperators

  datatype UnaryOperator = UnaryPlus | UnaryMinus | BitwiseNot | LogicalNot

  datatype BinaryOperator =
    | LogicalAnd | LogicalOr | Power | Multiply | Divide | Modulo | Comma | Add | Subtract
    | ShiftLeft | ShiftRight | LessThan | LessThanOrEqualTo | GreaterThan | GreaterThanOrEqualTo
    | Equals | NotEquals | BitwiseAnd | BitwiseXor | BitwiseOr

  datatype UnaryAssignmentOperator =
    PrefixIncrement | PrefixDecrement | PostfixIncrement | PostfixDecrement

  datatype Target = Variable(name: string) | ArrayElement(base: string, index: Expr)

  datatype Expr =
    | Literal(value: i64)
    | Reference(target: Target)
    | UnaryOp(uop: UnaryOperator, operand: Expr)
    | BinaryOp(bop: BinaryOperator, left: Expr, right: Expr)
    | Conditional(cond: Expr, thn: Expr, els: Expr)
    | Assignment(lhs: Target, rhs: Expr)
    | UnaryAssignment(aop: UnaryAssignmentOperator, place: Target)
    | BinaryAssignment(oop: BinaryOperator, dest: Target, amount: Expr)

  /** Termination measure: an updating expression outweighs the reference it reads back. */
  function Size(e: Expr): nat {
    match e
    case Literal(_) => 0
    case Reference(t) => 1 + TargetSize(t)
    case UnaryOp(_, x) => 1 + Size(x)
    case BinaryOp(_, l, r) => 3 + Size(l) + Size(r)
    case Conditional(c, t, f) => 1 + Size(c) + Size(t) + Size(f)
    case Assignment(t, x) => 1 + TargetSize(t) + Size(x)
    case UnaryAssignment(_, t) => 2 + TargetSize(t)
    case BinaryAssignment(_, t, x) => 5 + TargetSize(t) + Size(x)
  }

  function TargetSize(t: Target): nat {
    match t
    case Variable(_) => 1
    case ArrayElement(_, i) => 2 + Size(i)
  }

  datatype EvalError =
    | DivideByZero | NegativeExponent | FailedToAccessArray | FailedToUpdateEnvironment
    | ParseError(text: string) | ExpandingUnsetVariable(name: string) | RecursionLimitExceeded

  datatype Computed = Value(value: i64) | Fault(error: EvalError)

  function BoolWord(b: bool): i64 {
    if b then 1 else 0
  }

  function UnaryValue(op: UnaryOperator, x: i64): i64 {
    match op
    case UnaryPlus => x
    case UnaryMinus => Wrap(-(x as int))
    case BitwiseNot => -(x as int) - 1
    case LogicalNot => BoolWord(x == 0)
  }

  /** The operators that evaluate both operands. */
  function BinaryValue(op: BinaryOperator, l: i64, r: i64): Computed
    requires !op.LogicalAnd? && !op.LogicalOr?
  {
    match op
    case Power => if r >= 0 then Value(Wrap(Pow(l, r))) else Fault(NegativeExponent)
    case Multiply => Value(WrappingMul(l, r))
    case Divide => if r == 0 then Fault(DivideByZero) else Value(Wrap(TruncDiv(l, r)))
    case Modulo => if r == 0 then Fault(DivideByZero) else Value(Wrap(TruncRem(l, r)))
    case Comma => Value(r)
    case Add => Value(Wrap(l + r))
    case Subtract => Value(Wrap(l - r))
    case ShiftLeft => Value(Wrap(l * Pow2(ShiftAmount(r))))
    case ShiftRight => Value(WordOperators.ShiftRight(l, ShiftAmount(r)))
    case LessThan => Value(BoolWord(l < r))
    case LessThanOrEqualTo => Value(BoolWord(l <= r))
    case GreaterThan => Value(BoolWord(l > r))
    case GreaterThanOrEqualTo => Value(BoolWord(l >= r))
    case Equals => Value(BoolWord(l == r))
    case NotEquals => Value(BoolWord(l != r))
    case BitwiseAnd => Value(WordBitwise((a, b) => a && b, l, r))
    case BitwiseXor => Value(WordBitwise((a, b) => a != b, l, r))
    case BitwiseOr => Value(WordBitwise((a, b) => a || b, l, r))
  }

  function Step(op: UnaryAssignmentOperator): i64 {
    if op.PrefixIncrement? || op.PostfixIncrement? then 1 else -1
  }

  predicate IsPrefix(op: UnaryAssignmentOperator) {
    op.PrefixIncrement? || op.PrefixDecrement?
  }
}

/**
 * The evaluator over an arbitrary shell environment. How a string is parsed as an expression, what
 * the two-operand operators compute and what happens when a variable is read or written is given by
 * a table of functions; a written word is stored as its decimal text by the table's own update.
 */
module Evaluator {
  import opened Wrappers
  import opened Words
  import opened ArithmeticSyntax

  /** Whatever the shell keeps its variables in. */
  type Env(!new)

  const MAX_VARIABLE_DEREF_DEPTH: nat := 1024

  /** Reading an array element: the access may fail, find nothing, or find a value. */
  datatype Element = Inaccessible | Absent | Present(text: string)

  datatype Update = Updated(env: Env) | Refused(env: Env)

  datatype Shell = Shell(
    parse: string -> Option<Expr>,
    combine: (BinaryOperator, i64, i64) -> Computed,
    lookup: (Env, string) -> Option<string>,
    treatUnsetAsError: bool,
    elementAt: (Env, string, i64) -> Element,
    update: (Env, string, i64) -> Update,
    updateElement: (Env, string, i64, i64) -> Update)

  /** The table's operators are the wrapping 64-bit ones. */
  ghost predicate WordShell(sh: Shell) {
    forall op: BinaryOperator, x: i64, y: i64 | !op.LogicalAnd? && !op.LogicalOr? :: sh.combine(op, x, y) == BinaryValue(op, x, y)
  }

  /** A value or an error, and the environment left behind in either case. */
  datatype Outcome = Ok(value: i64, env: Env) | Err(error: EvalError, env: Env)

  function Finish(c: Computed, env: Env): Outcome {
    match c
    case Value(v) => Ok(v, env)
    case Fault(e) => Err(e, env)
  }

  function VariableText(sh: Shell, env: Env, name: string): Option<string> {
    match sh.lookup(env, name)
    case Some(s) => Some(s)
    case None => if sh.treatUnsetAsError then None else Some("")
  }

  function ElementText(sh: Shell, env: Env, name: string, index: i64): Option<string> {
    match sh.elementAt(env, name, index)
    case Inaccessible => None
    case Absent => Some("")
    case Present(s) => Some(s)
  }

  function Eval(sh: Shell, e: Expr, env: Env, depth: nat): Outcome
    requires depth <= MAX_VARIABLE_DEREF_DEPTH
    decreases MAX_VARIABLE_DEREF_DEPTH - depth, Size(e)
  {
    match e
    case Literal(l) => Ok(l, env)
    case Reference(t) => Deref(sh, t, env, depth)
    case UnaryOp(op, x) =>
      var o := Eval(sh, x, env, depth);
      if o.Err? then o else Ok(UnaryValue(op, o.value), o.env)
    case BinaryOp(op, l, r) => ApplyBinary(sh, op, l, r, env, depth)
    case Conditional(c, t, f) =>
      var o := Eval(sh, c, env, depth);
      if o.Err? then o
      else if o.value != 0 then Eval(sh, t, o.env, depth)
      else Eval(sh, f, o.env, depth)
    case Assignment(t, x) =>
      var o := Eval(sh, x, env, depth);
      if o.Err? then o else Assign(sh, t, o.value, o.env, depth)
    case UnaryAssignment(op, t) => ApplyUnaryAssignment(sh, op, t, env, depth)
    case BinaryAssignment(op, t, x) =>
      var o := ApplyBinary(sh, op, Reference(t), x, env, depth);
      if o.Err? then o else Assign(sh, t, o.value, o.env, depth)
  }

  function Deref(sh: Shell, t: Target, env: Env, depth: nat): Outcome
    requires depth <= MAX_VARIABLE_DEREF_DEPTH
    decreases MAX_VARIABLE_DEREF_DEPTH - depth, TargetSize(t)
  {
    match t
    case Variable(n) =>
      (match VariableText(sh, env, n)
       case None => Err(ExpandingUnsetVariable(n), env)
       case Some(s) => EvalText(sh, s, env, depth))
    case ArrayElement(n, i) =>
      var o := Eval(sh, i, env, depth);
      if o.Err? then o
      else
        match ElementText(sh, o.env, n, o.value)
        case None => Err(FailedToAccessArray, o.env)
        case Some(s) => EvalText(sh, s, o.env, depth)
  }

  /** Evaluates a variable's text: a literal stays at this depth, anything else goes one deeper. */
  function EvalText(sh: Shell, text: string, env: Env, depth: nat): Outcome
    requires depth <= MAX_VARIABLE_DEREF_DEPTH
    decreases MAX_VARIABLE_DEREF_DEPTH - depth, 0
  {
    match sh.parse(text)
    case None => Err(ParseError(text), env)
    case Some(e) =>
      if e.Literal? then Ok(e.value, env)
      else if depth + 1 > MAX_VARIABLE_DEREF_DEPTH then Err(RecursionLimitExceeded, env)
      else Eval(sh, e, env, depth + 1)
  }

  function ApplyBinary(sh: Shell, op: BinaryOperator, l: Expr, r: Expr, env: Env, depth: nat): Outcome
    requires depth <= MAX_VARIABLE_DEREF_DEPTH
    decreases MAX_VARIABLE_DEREF_DEPTH - depth, 2 + Size(l) + Size(r)
  {
    var o := Eval(sh, l, env, depth);
    if o.Err? then o
    else if op.LogicalAnd? && o.value == 0 then Ok(0, o.env)
    else if op.LogicalOr? && o.value != 0 then Ok(1, o.env)
    else ApplyRight(sh, op, o.value, r, o.env, depth)
  }

  function ApplyRight(sh: Shell, op: BinaryOperator, x: i64, r: Expr, env: Env, depth: nat): Outcome
    requires depth <= MAX_VARIABLE_DEREF_DEPTH
    decreases MAX_VARIABLE_DEREF_DEPTH - depth, 1 + Size(r)
  {
    var o := Eval(sh, r, env, depth);
    if o.Err? then o
    else if op.LogicalAnd? || op.LogicalOr? then Ok(BoolWord(o.value != 0), o.env)
    else Finish(sh.combine(op, x, o.value), o.env)
  }

  function ApplyUnaryAssignment(sh: Shell, op: UnaryAssignmentOperator, t: Target, env: Env, depth: nat): Outcome
    requires depth <= MAX_VARIABLE_DEREF_DEPTH
    decreases MAX_VARIABLE_DEREF_DEPTH - depth, 1 + TargetSize(t)
  {
    var o := Deref(sh, t, env, depth);
    if o.Err? then o
    else
      var stored := Assign(sh, t, Wrap(o.value + Step(op)), o.env, depth);
      if stored.Err? || IsPrefix(op) then stored else Ok(o.value, stored.env)
  }

  function Assign(sh: Shell, t: Target, v: i64, env: Env, depth: nat): Outcome
    requires depth <= MAX_VARIABLE_DEREF_DEPTH
    decreases MAX_VARIABLE_DEREF_DEPTH - depth, TargetSize(t)
  {
    match t
    case Variable(n) => Stored(sh.update(env, n, v), v)
    case ArrayElement(n, i) =>
      var o := Eval(sh, i, env, depth);
      if o.Err? then o else Stored(sh.updateElement(o.env, n, o.value, v), v)
  }

  function Stored(u: Update, v: i64): Outcome {
    match u
    case Updated(env) => Ok(v, env)
    case Refused(env) => Err(FailedToUpdateEnvironment, env)
  }

  method CombineOperands(op: BinaryOperator, x: i64, y: i64) returns (r: Computed)
    requires !op.LogicalAnd? && !op.LogicalOr?
    ensures r == BinaryValue(op, x, y)
  {
    if op.Power? && y >= 0 {
      var p := WrappingPow(x, y);
      return Value(p);
    }
    r := BinaryValue(op, x, y);
  }

  /** The evaluator as the shell runs it: the environment is updated in place. */
  class Interpreter {
    const sh: Shell
    var env: Env

    constructor (sh: Shell, env: Env)
      requires WordShell(sh)
      ensures this.sh == sh && this.env == env
    {
      this.sh := sh;
      this.env := env;
    }

    method EvalExpr(e: Expr, depth: nat) returns (r: Computed)
      requires WordShell(sh) && depth <= MAX_VARIABLE_DEREF_DEPTH
      modifies this
      ensures Finish(r, env) == Eval(sh, e, old(env), depth)
      decreases MAX_VARIABLE_DEREF_DEPTH - depth, Size(e)
    {
      match e
      case Literal(l) => r := Value(l);
      case Reference(t) => r := DerefTarget(t, depth);
      case UnaryOp(op, x) =>
        r := EvalExpr(x, depth);
        if r.Value? { r := Value(UnaryValue(op, r.value)); }
      case BinaryOp(op, left, right) => r := ApplyBinaryOp(op, left, right, depth);
      case Conditional(c, thn, els) =>
        r := EvalExpr(c, depth);
        if r.Value? {
          if r.value != 0 { r := EvalExpr(thn, depth); } else { r := EvalExpr(els, depth); }
        }
      case Assignment(t, x) =>
        r := EvalExpr(x, depth);
        if r.Value? { r := AssignTarget(t, r.value, depth); }
      case UnaryAssignment(op, t) => r := ApplyUnaryAssignmentOp(t, op, depth);
      case BinaryAssignment(op, t, x) =>
        r := ApplyBinaryOp(op, Reference(t), x, depth);
        if r.Value? { r := AssignTarget(t, r.value, depth); }
    }

    method DerefTarget(t: Target, depth: nat) returns (r: Computed)
      requires WordShell(sh) && depth <= MAX_VARIABLE_DEREF_DEPTH
      modifies this
      ensures Finish(r, env) == Deref(sh, t, old(env), depth)
      decreases MAX_VARIABLE_DEREF_DEPTH - depth, TargetSize(t)
    {
      var text: string;
      match t {
        case Variable(n) =>
          var found := VariableText(sh, env, n);
          if found.None? { return Fault(ExpandingUnsetVariable(n)); }
          text := found.value;
        case ArrayElement(n, i) =>
          r := EvalExpr(i, depth);
          if r.Fault? { return; }
          var found := ElementText(sh, env, n, r.value);
          if found.None? { return Fault(FailedToAccessArray); }
          text := found.value;
      }
      var parsed := sh.parse(text);
      if parsed.None? { return Fault(ParseError(text)); }
      if parsed.value.Literal? { return Value(parsed.value.value); }
      if depth + 1 > MAX_VARIABLE_DEREF_DEPTH { return Fault(RecursionLimitExceeded); }
      r := EvalExpr(parsed.value, depth + 1);
    }

    method ApplyBinaryOp(op: BinaryOperator, left: Expr, right: Expr, depth: nat) returns (r: Computed)
      requires WordShell(sh) && depth <= MAX_VARIABLE_DEREF_DEPTH
      modifies this
      ensures Finish(r, env) == ApplyBinary(sh, op, left, right, old(env), depth)
      decreases MAX_VARIABLE_DEREF_DEPTH - depth, 2 + Size(left) + Size(right)
    {
      ghost var goal := ApplyBinary(sh, op, left, right, env, depth);
      ghost var first := Eval(sh, left, env, depth);
      r := EvalExpr(left, depth);
      assert first == Finish(r, env);
      if r.Fault? { assert goal == first; return; }
      var x := r.value;
      if op.LogicalAnd? && x == 0 { assert goal == Ok(0, env); return Value(BoolWord(false)); }
      if op.LogicalOr? && x != 0 { assert goal == Ok(1, env); return Value(BoolWord(true)); }
      assert goal == ApplyRight(sh, op, x, right, env, depth);
      r := ApplyToRightOperand(op, x, right, depth);
    }

    method ApplyToRightOperand(op: BinaryOperator, x: i64, right: Expr, depth: nat) returns (r: Computed)
      requires WordShell(sh) && depth <= MAX_VARIABLE_DEREF_DEPTH
      modifies this
      ensures Finish(r, env) == ApplyRight(sh, op, x, right, old(env), depth)
      decreases MAX_VARIABLE_DEREF_DEPTH - depth, 1 + Size(right)
    {
      ghost var goal := ApplyRight(sh, op, x, right, env, depth);
      ghost var second := Eval(sh, right, env, depth);
      r := EvalExpr(right, depth);
      assert second == Finish(r, env);
      if r.Fault? { assert goal == second; return; }
      if op.LogicalAnd? || op.LogicalOr? { return Value(BoolWord(r.value != 0)); }
      r := CombineOperands(op, x, r.value);
    }

    method ApplyUnaryAssignmentOp(t: Target, op: UnaryAssignmentOperator, depth: nat) returns (r: Computed)
      requires WordShell(sh) && depth <= MAX_VARIABLE_DEREF_DEPTH
      modifies this
      ensures Finish(r, env) == ApplyUnaryAssignment(sh, op, t, old(env), depth)
      decreases MAX_VARIABLE_DEREF_DEPTH - depth, 1 + TargetSize(t)
    {
      r := DerefTarget(t, depth);
      if r.Fault? { return; }
      var value := r.value;
      r := AssignTarget(t, Wrap(value + Step(op)), depth);
      if r.Value? && !IsPrefix(op) { r := Value(value); }
    }

    method AssignTarget(t: Target, value: i64, depth: nat) returns (r: Computed)
      requires WordShell(sh) && depth <= MAX_VARIABLE_DEREF_DEPTH
      modifies this
      ensures Finish(r, env) == Assign(sh, t, value, old(env), depth)
      decreases MAX_VARIABLE_DEREF_DEPTH - depth, TargetSize(t)
    {
      var u: Update;
      match t {
        case Variable(n) =>
          u := sh.update(env, n, value);
        case ArrayElement(n, i) =>
          r := EvalExpr(i, depth);
          if r.Fault? { return; }
          u := sh.updateElement(env, n, r.value, value);
      }
      env := u.env;
      r := if u.Updated? then Value(value) else Fault(FailedToUpdateEnvironment);
    }
  }
}
