/** What the dereference limit does, and what it leaves alone. */
module DepthLimit {
  import opened Wrappers
  import opened Words
  import opened ArithmeticSyntax
  import opened Evaluator

  predicate HitLimit(o: Outcome) {
    o.Err? && o.error.RecursionLimitExceeded?
  }

  /** Any outcome but the limit error is the same value or error, and environment, at every smaller depth. */
  lemma {:induction false} DepthOnlyCuts(sh: Shell, e: Expr, env: Env, depth: nat, less: nat)
    requires less <= depth <= MAX_VARIABLE_DEREF_DEPTH
    requires !HitLimit(Eval(sh, e, env, depth))
    ensures Eval(sh, e, env, less) == Eval(sh, e, env, depth)
    decreases MAX_VARIABLE_DEREF_DEPTH - depth, Size(e)
  {
    match e
    case Literal(_) =>
    case Reference(t) => DerefCuts(sh, t, env, depth, less);
    case UnaryOp(_, x) => DepthOnlyCuts(sh, x, env, depth, less);
    case BinaryOp(op, l, r) => BinaryCuts(sh, op, l, r, env, depth, less);
    case Conditional(c, t, f) => ConditionalCuts(sh, c, t, f, env, depth, less);
    case Assignment(t, x) =>
      var o := Eval(sh, x, env, depth);
      DepthOnlyCuts(sh, x, env, depth, less);
      if o.Ok? { AssignCuts(sh, t, o.value, o.env, depth, less); }
    case UnaryAssignment(op, t) => UnaryAssignmentCuts(sh, op, t, env, depth, less);
    case BinaryAssignment(op, t, x) =>
      var o := ApplyBinary(sh, op, Reference(t), x, env, depth);
      BinaryCuts(sh, op, Reference(t), x, env, depth, less);
      if o.Ok? { AssignCuts(sh, t, o.value, o.env, depth, less); }
  }

  lemma {:induction false} ConditionalCuts(sh: Shell, c: Expr, t: Expr, f: Expr, env: Env, depth: nat, less: nat)
    requires less <= depth <= MAX_VARIABLE_DEREF_DEPTH
    requires !HitLimit(Eval(sh, Conditional(c, t, f), env, depth))
    ensures Eval(sh, Conditional(c, t, f), env, less) == Eval(sh, Conditional(c, t, f), env, depth)
    decreases MAX_VARIABLE_DEREF_DEPTH - depth, 1 + Size(c) + Size(t) + Size(f), 0
  {
    var o := Eval(sh, c, env, depth);
    DepthOnlyCuts(sh, c, env, depth, less);
    if o.Ok? {
      DepthOnlyCuts(sh, if o.value != 0 then t else f, o.env, depth, less);
    }
  }

  lemma {:induction false} UnaryAssignmentCuts(sh: Shell, op: UnaryAssignmentOperator, t: Target, env: Env, depth: nat, less: nat)
    requires less <= depth <= MAX_VARIABLE_DEREF_DEPTH
    requires !HitLimit(ApplyUnaryAssignment(sh, op, t, env, depth))
    ensures ApplyUnaryAssignment(sh, op, t, env, less) == ApplyUnaryAssignment(sh, op, t, env, depth)
    decreases MAX_VARIABLE_DEREF_DEPTH - depth, 1 + TargetSize(t), 0
  {
    var o := Deref(sh, t, env, depth);
    DerefCuts(sh, t, env, depth, less);
    if o.Ok? { AssignCuts(sh, t, Wrap(o.value + Step(op)), o.env, depth, less); }
  }

  lemma {:induction false} DerefCuts(sh: Shell, t: Target, env: Env, depth: nat, less: nat)
    requires less <= depth <= MAX_VARIABLE_DEREF_DEPTH
    requires !HitLimit(Deref(sh, t, env, depth))
    ensures Deref(sh, t, env, less) == Deref(sh, t, env, depth)
    decreases MAX_VARIABLE_DEREF_DEPTH - depth, TargetSize(t)
  {
    match t
    case Variable(n) =>
      var s := VariableText(sh, env, n);
      if s.Some? { TextCuts(sh, s.value, env, depth, less); }
    case ArrayElement(n, i) =>
      DepthOnlyCuts(sh, i, env, depth, less);
      var o := Eval(sh, i, env, depth);
      if o.Ok? {
        var s := ElementText(sh, o.env, n, o.value);
        if s.Some? { TextCuts(sh, s.value, o.env, depth, less); }
      }
  }

  lemma {:induction false} TextCuts(sh: Shell, text: string, env: Env, depth: nat, less: nat)
    requires less <= depth <= MAX_VARIABLE_DEREF_DEPTH
    requires !HitLimit(EvalText(sh, text, env, depth))
    ensures EvalText(sh, text, env, less) == EvalText(sh, text, env, depth)
    decreases MAX_VARIABLE_DEREF_DEPTH - depth, 0
  {
    var p := sh.parse(text);
    if p.Some? && !p.value.Literal? {
      DepthOnlyCuts(sh, p.value, env, depth + 1, less + 1);
    }
  }

  lemma {:induction false} BinaryCuts(sh: Shell, op: BinaryOperator, l: Expr, r: Expr, env: Env, depth: nat, less: nat)
    requires less <= depth <= MAX_VARIABLE_DEREF_DEPTH
    requires !HitLimit(ApplyBinary(sh, op, l, r, env, depth))
    ensures ApplyBinary(sh, op, l, r, env, less) == ApplyBinary(sh, op, l, r, env, depth)
    decreases MAX_VARIABLE_DEREF_DEPTH - depth, 2 + Size(l) + Size(r)
  {
    var o := Eval(sh, l, env, depth);
    var long, short := ApplyBinary(sh, op, l, r, env, depth), ApplyBinary(sh, op, l, r, env, less);
    assert !HitLimit(o);
    DepthOnlyCuts(sh, l, env, depth, less);
    if o.Err? {
      assert long == o == short;
    } else if op.LogicalAnd? && o.value == 0 {
      assert long == Ok(0, o.env) == short;
    } else if op.LogicalOr? && o.value != 0 {
      assert long == Ok(1, o.env) == short;
    } else {
      assert long == ApplyRight(sh, op, o.value, r, o.env, depth);
      assert short == ApplyRight(sh, op, o.value, r, o.env, less);
      RightCuts(sh, op, o.value, r, o.env, depth, less);
    }
  }

  lemma {:induction false} RightCuts(sh: Shell, op: BinaryOperator, x: i64, r: Expr, env: Env, depth: nat, less: nat)
    requires less <= depth <= MAX_VARIABLE_DEREF_DEPTH
    requires !HitLimit(ApplyRight(sh, op, x, r, env, depth))
    ensures ApplyRight(sh, op, x, r, env, less) == ApplyRight(sh, op, x, r, env, depth)
    decreases MAX_VARIABLE_DEREF_DEPTH - depth, 1 + Size(r)
  {
    DepthOnlyCuts(sh, r, env, depth, less);
  }

  lemma {:induction false} AssignCuts(sh: Shell, t: Target, v: i64, env: Env, depth: nat, less: nat)
    requires less <= depth <= MAX_VARIABLE_DEREF_DEPTH
    requires !HitLimit(Assign(sh, t, v, env, depth))
    ensures Assign(sh, t, v, env, less) == Assign(sh, t, v, env, depth)
    decreases MAX_VARIABLE_DEREF_DEPTH - depth, TargetSize(t)
  {
    if t.ArrayElement? {
      DepthOnlyCuts(sh, t.index, env, depth, less);
    }
  }

  /** The variable's text is a reference to the next variable. */
  ghost predicate RefersTo(sh: Shell, env: Env, name: string, next: string) {
    var s := sh.lookup(env, name);
    s.Some? && sh.parse(s.value) == Some(Reference(Variable(next)))
  }

  lemma ReferenceHops(sh: Shell, env: Env, name: string, next: string, depth: nat)
    requires depth <= MAX_VARIABLE_DEREF_DEPTH && RefersTo(sh, env, name, next)
    ensures Eval(sh, Reference(Variable(name)), env, depth) ==
            if depth == MAX_VARIABLE_DEREF_DEPTH then Err(RecursionLimitExceeded, env)
            else Eval(sh, Reference(Variable(next)), env, depth + 1)
  {
    var s := sh.lookup(env, name);
    assert Eval(sh, Reference(Variable(name)), env, depth) == Deref(sh, Variable(name), env, depth);
    assert Deref(sh, Variable(name), env, depth) == EvalText(sh, s.value, env, depth);
  }

  /** A set of variables closed under reference has no value: every walk through it hits the limit. */
  lemma {:induction false} CycleHitsLimit(sh: Shell, env: Env, ring: set<string>, next: string -> string, name: string, depth: nat)
    requires depth <= MAX_VARIABLE_DEREF_DEPTH
    requires name in ring
    requires forall x | x in ring :: next(x) in ring && RefersTo(sh, env, x, next(x))
    ensures Eval(sh, Reference(Variable(name)), env, depth) == Err(RecursionLimitExceeded, env)
    decreases MAX_VARIABLE_DEREF_DEPTH - depth
  {
    ReferenceHops(sh, env, name, next(name), depth);
    if depth < MAX_VARIABLE_DEREF_DEPTH {
      CycleHitsLimit(sh, env, ring, next, next(name), depth + 1);
    }
  }

  ghost predicate Chain(sh: Shell, env: Env, names: seq<string>, last: i64) {
    && names != []
    && (forall k | 0 <= k < |names| - 1 :: RefersTo(sh, env, names[k], names[k + 1]))
    && var s := sh.lookup(env, names[|names| - 1]);
       s.Some? && sh.parse(s.value) == Some(Literal(last))
  }

  /** A chain of n variables ending in a literal evaluates exactly when its n - 1 hops fit the limit. */
  lemma {:induction false} ChainFitsLimit(sh: Shell, env: Env, names: seq<string>, last: i64, depth: nat)
    requires depth <= MAX_VARIABLE_DEREF_DEPTH
    requires Chain(sh, env, names, last)
    ensures Eval(sh, Reference(Variable(names[0])), env, depth) ==
            if depth + |names| - 1 <= MAX_VARIABLE_DEREF_DEPTH then Ok(last, env)
            else Err(RecursionLimitExceeded, env)
    decreases |names|
  {
    if |names| == 1 {
      var s := sh.lookup(env, names[0]);
      assert Deref(sh, Variable(names[0]), env, depth) == EvalText(sh, s.value, env, depth);
    } else {
      assert RefersTo(sh, env, names[0], names[1]);
      ReferenceHops(sh, env, names[0], names[1], depth);
      if depth < MAX_VARIABLE_DEREF_DEPTH {
        var rest := names[1..];
        assert forall k | 0 <= k < |rest| - 1 :: RefersTo(sh, env, rest[k], rest[k + 1]);
        ChainFitsLimit(sh, env, rest, last, depth + 1);
      }
    }
  }
}

/** A big-step semantics with no depth limit, as trees of judgements. */
module BigStep {
  import opened Wrappers
  import opened Words
  import opened ArithmeticSyntax
  import opened Evaluator

  /** The judgement "expr in pre yields value and post", with the premises that support it. */
  datatype Deriv = Deriv(expr: Expr, pre: Env, value: i64, post: Env, sub: seq<Deriv>)

  /** Premise k judges expression e in environment env. */
  ghost predicate Judges(d: Deriv, k: nat, e: Expr, env: Env) {
    k < |d.sub| && d.sub[k].expr == e && d.sub[k].pre == env
  }

  ghost predicate Derives(sh: Shell, d: Deriv)
    decreases d
  {
    && (forall k | 0 <= k < |d.sub| :: Derives(sh, d.sub[k]))
    && match d.expr
       case Literal(l) => d.sub == [] && d.value == l && d.post == d.pre
       case Reference(t) => Dereferences(sh, d, t)
       case UnaryOp(op, x) =>
         |d.sub| == 1 && Judges(d, 0, x, d.pre) && d.value == UnaryValue(op, d.sub[0].value) && d.post == d.sub[0].post
       case BinaryOp(op, l, r) => Combines(sh, d, op, l, r)
       case Conditional(c, t, f) =>
         && |d.sub| == 2 && Judges(d, 0, c, d.pre)
         && Judges(d, 1, if d.sub[0].value != 0 then t else f, d.sub[0].post)
         && d.value == d.sub[1].value && d.post == d.sub[1].post
       case Assignment(t, x) =>
         |d.sub| > 0 && Judges(d, 0, x, d.pre) && d.value == d.sub[0].value && Stores(sh, d, t, d.value)
       case UnaryAssignment(op, t) =>
         && |d.sub| > 0 && Judges(d, 0, Reference(t), d.pre)
         && var old' := d.sub[0].value;
         && var new' := Wrap(old' + Step(op));
         && d.value == (if IsPrefix(op) then new' else old')
         && Stores(sh, d, t, new')
       case BinaryAssignment(op, t, x) =>
         && |d.sub| > 0 && Judges(d, 0, BinaryOp(op, Reference(t), x), d.pre)
         && d.value == d.sub[0].value && Stores(sh, d, t, d.value)
  }

  /** The last premise judges the parsed text of the variable or element read. */
  ghost predicate Dereferences(sh: Shell, d: Deriv, t: Target) {
    && d.sub != []
    && var body := d.sub[|d.sub| - 1];
    && d.value == body.value && d.post == body.post
    && match t
       case Variable(n) =>
         && |d.sub| == 1 && body.pre == d.pre
         && var s := VariableText(sh, d.pre, n);
            s.Some? && sh.parse(s.value) == Some(body.expr)
       case ArrayElement(n, i) =>
         && |d.sub| == 2 && Judges(d, 0, i, d.pre) && body.pre == d.sub[0].post
         && var s := ElementText(sh, d.sub[0].post, n, d.sub[0].value);
            s.Some? && sh.parse(s.value) == Some(body.expr)
  }

  /** The right operand is judged only when the left one does not decide. */
  ghost predicate Combines(sh: Shell, d: Deriv, op: BinaryOperator, l: Expr, r: Expr) {
    && |d.sub| > 0 && Judges(d, 0, l, d.pre)
    && var x := d.sub[0].value;
       if op.LogicalAnd? && x == 0 then
         |d.sub| == 1 && d.value == 0 && d.post == d.sub[0].post
       else if op.LogicalOr? && x != 0 then
         |d.sub| == 1 && d.value == 1 && d.post == d.sub[0].post
       else
         && |d.sub| == 2 && Judges(d, 1, r, d.sub[0].post) && d.post == d.sub[1].post
         && var y := d.sub[1].value;
            if op.LogicalAnd? || op.LogicalOr? then d.value == BoolWord(y != 0)
            else sh.combine(op, x, y) == Value(d.value)
  }

  /** The first premise's environment, then an index premise if the target has one, then the update. */
  ghost predicate Stores(sh: Shell, d: Deriv, t: Target, v: i64)
    requires |d.sub| > 0
  {
    match t
    case Variable(n) => |d.sub| == 1 && sh.update(d.sub[0].post, n, v) == Updated(d.post)
    case ArrayElement(n, i) =>
      && |d.sub| == 2 && Judges(d, 1, i, d.sub[0].post)
      && sh.updateElement(d.sub[1].post, n, d.sub[1].value, v) == Updated(d.post)
  }

  /** How many non-literal variable texts are opened inside one another. */
  ghost function Nesting(d: Deriv): nat
    decreases d
  {
    if d.sub == [] then 0
    else
      var last := d.sub[|d.sub| - 1];
      var inner := Nesting(last) + if d.expr.Reference? && !last.expr.Literal? then 1 else 0;
      var outer := Nesting(d.sub[0]);
      if |d.sub| == 1 || outer < inner then inner else outer
  }

  /** What the evaluator returns when it agrees with a derivation. */
  function Yields(d: Deriv): Outcome {
    Ok(d.value, d.post)
  }

  /** Every derivation whose nesting fits the limit is found by the evaluator. */
  lemma {:induction false} EvaluatorFindsDerivations(sh: Shell, d: Deriv, depth: nat)
    requires Derives(sh, d)
    requires depth + Nesting(d) <= MAX_VARIABLE_DEREF_DEPTH
    ensures Eval(sh, d.expr, d.pre, depth) == Yields(d)
    decreases d
  {
    match d.expr
    case Literal(_) =>
    case Reference(t) => DereferenceFound(sh, d, t, depth);
    case UnaryOp(_, _) => EvaluatorFindsDerivations(sh, d.sub[0], depth);
    case BinaryOp(op, l, r) => CombinationFound(sh, d, op, l, r, depth);
    case Conditional(c, t, f) => ConditionalFound(sh, d, c, t, f, depth);
    case _ => AssignmentFound(sh, d, depth);
  }

  lemma {:induction false} ConditionalFound(sh: Shell, d: Deriv, c: Expr, t: Expr, f: Expr, depth: nat)
    requires Derives(sh, d) && d.expr == Conditional(c, t, f)
    requires depth + Nesting(d) <= MAX_VARIABLE_DEREF_DEPTH
    ensures Eval(sh, d.expr, d.pre, depth) == Yields(d)
    decreases d, 0
  {
    EvaluatorFindsDerivations(sh, d.sub[0], depth);
    EvaluatorFindsDerivations(sh, d.sub[1], depth);
  }

  lemma {:induction false} AssignmentFound(sh: Shell, d: Deriv, depth: nat)
    requires Derives(sh, d) && (d.expr.Assignment? || d.expr.UnaryAssignment? || d.expr.BinaryAssignment?)
    requires depth + Nesting(d) <= MAX_VARIABLE_DEREF_DEPTH
    ensures Eval(sh, d.expr, d.pre, depth) == Yields(d)
    decreases d, 1
  {
    var p := d.sub[0];
    EvaluatorFindsDerivations(sh, p, depth);
    match d.expr
    case Assignment(t, _) => StoreFound(sh, d, t, d.value, depth);
    case UnaryAssignment(op, t) =>
      assert Deref(sh, t, d.pre, depth) == Yields(p);
      StoreFound(sh, d, t, Wrap(p.value + Step(op)), depth);
    case BinaryAssignment(op, t, x) =>
      assert ApplyBinary(sh, op, Reference(t), x, d.pre, depth) == Yields(p);
      StoreFound(sh, d, t, d.value, depth);
  }

  lemma {:induction false} DereferenceFound(sh: Shell, d: Deriv, t: Target, depth: nat)
    requires Derives(sh, d) && d.expr == Reference(t)
    requires depth + Nesting(d) <= MAX_VARIABLE_DEREF_DEPTH
    ensures Deref(sh, t, d.pre, depth) == Yields(d)
    decreases d, 0
  {
    var body := d.sub[|d.sub| - 1];
    if !body.expr.Literal? {
      EvaluatorFindsDerivations(sh, body, depth + 1);
    }
    if t.ArrayElement? {
      EvaluatorFindsDerivations(sh, d.sub[0], depth);
      var s := ElementText(sh, d.sub[0].post, t.base, d.sub[0].value);
      assert Deref(sh, t, d.pre, depth) == EvalText(sh, s.value, d.sub[0].post, depth);
    } else {
      var s := VariableText(sh, d.pre, t.name);
      assert Deref(sh, t, d.pre, depth) == EvalText(sh, s.value, d.pre, depth);
    }
  }

  lemma {:induction false} CombinationFound(sh: Shell, d: Deriv, op: BinaryOperator, l: Expr, r: Expr, depth: nat)
    requires Derives(sh, d) && d.expr == BinaryOp(op, l, r)
    requires depth + Nesting(d) <= MAX_VARIABLE_DEREF_DEPTH
    ensures ApplyBinary(sh, op, l, r, d.pre, depth) == Yields(d)
    decreases d, 0
  {
    EvaluatorFindsDerivations(sh, d.sub[0], depth);
    if |d.sub| == 2 {
      EvaluatorFindsDerivations(sh, d.sub[1], depth);
      assert ApplyBinary(sh, op, l, r, d.pre, depth) == ApplyRight(sh, op, d.sub[0].value, r, d.sub[0].post, depth);
    }
  }

  lemma {:induction false} StoreFound(sh: Shell, d: Deriv, t: Target, v: i64, depth: nat)
    requires Derives(sh, d) && d.sub != [] && !d.expr.Reference? && Stores(sh, d, t, v)
    requires depth + Nesting(d) <= MAX_VARIABLE_DEREF_DEPTH
    ensures Assign(sh, t, v, d.sub[0].post, depth) == Ok(v, d.post)
    decreases d, 0
  {
    if t.ArrayElement? {
      EvaluatorFindsDerivations(sh, d.sub[1], depth);
    }
  }

  /** A derivation witnesses a result of the evaluator at this depth. */
  ghost predicate Witnesses(sh: Shell, d: Deriv, e: Expr, env: Env, o: Outcome, depth: nat) {
    && Derives(sh, d) && d.expr == e && d.pre == env && o == Yields(d)
    && depth + Nesting(d) <= MAX_VARIABLE_DEREF_DEPTH
  }

  /** Every value the evaluator returns has a derivation whose nesting fits the limit. */
  lemma {:induction false} ResultsAreDerived(sh: Shell, e: Expr, env: Env, depth: nat) returns (d: Deriv)
    requires depth <= MAX_VARIABLE_DEREF_DEPTH
    requires Eval(sh, e, env, depth).Ok?
    ensures Witnesses(sh, d, e, env, Eval(sh, e, env, depth), depth)
    decreases MAX_VARIABLE_DEREF_DEPTH - depth, Size(e)
  {
    var o := Eval(sh, e, env, depth);
    match e
    case Literal(_) => d := Deriv(e, env, o.value, o.env, []);
    case Reference(t) => d := DereferenceDerived(sh, t, env, depth);
    case UnaryOp(_, x) =>
      var p := ResultsAreDerived(sh, x, env, depth);
      d := Deriv(e, env, o.value, o.env, [p]);
    case BinaryOp(op, l, r) => d := CombinationDerived(sh, op, l, r, env, depth);
    case Conditional(c, t, f) =>
      var p := ResultsAreDerived(sh, c, env, depth);
      var q := ResultsAreDerived(sh, if p.value != 0 then t else f, p.post, depth);
      d := Deriv(e, env, o.value, o.env, [p, q]);
    case Assignment(t, x) =>
      var p := ResultsAreDerived(sh, x, env, depth);
      d := StoreDerived(sh, e, env, p, t, p.value, o.value, depth);
    case UnaryAssignment(op, t) => d := UnaryAssignmentDerived(sh, op, t, env, depth);
    case BinaryAssignment(op, t, x) => d := BinaryAssignmentDerived(sh, op, t, x, env, depth);
  }

  lemma {:induction false} UnaryAssignmentDerived(sh: Shell, op: UnaryAssignmentOperator, t: Target, env: Env, depth: nat)
    returns (d: Deriv)
    requires depth <= MAX_VARIABLE_DEREF_DEPTH
    requires ApplyUnaryAssignment(sh, op, t, env, depth).Ok?
    ensures Witnesses(sh, d, UnaryAssignment(op, t), env, ApplyUnaryAssignment(sh, op, t, env, depth), depth)
    decreases MAX_VARIABLE_DEREF_DEPTH - depth, 1 + TargetSize(t), 0
  {
    var o := ApplyUnaryAssignment(sh, op, t, env, depth);
    assert Deref(sh, t, env, depth).Ok?;
    var p := DereferenceDerived(sh, t, env, depth);
    var v := Wrap(p.value + Step(op));
    assert Assign(sh, t, v, p.post, depth).Ok?;
    d := StoreDerived(sh, UnaryAssignment(op, t), env, p, t, v, if IsPrefix(op) then v else p.value, depth);
    assert o == Yields(d);
    StoredIsDerived(sh, op, t, p, v, d);
  }

  lemma StoredIsDerived(sh: Shell, op: UnaryAssignmentOperator, t: Target, p: Deriv, v: i64, d: Deriv)
    requires Derives(sh, p) && p.expr == Reference(t) && p.pre == d.pre && v == Wrap(p.value + Step(op))
    requires d.expr == UnaryAssignment(op, t) && d.value == (if IsPrefix(op) then v else p.value)
    requires d.sub != [] && d.sub[0] == p && Stores(sh, d, t, v) && forall k | 0 <= k < |d.sub| :: Derives(sh, d.sub[k])
    ensures Derives(sh, d)
  {
  }

  lemma {:induction false} BinaryAssignmentDerived(sh: Shell, op: BinaryOperator, t: Target, x: Expr, env: Env, depth: nat)
    returns (d: Deriv)
    requires depth <= MAX_VARIABLE_DEREF_DEPTH
    requires Eval(sh, BinaryAssignment(op, t, x), env, depth).Ok?
    ensures Witnesses(sh, d, BinaryAssignment(op, t, x), env, Eval(sh, BinaryAssignment(op, t, x), env, depth), depth)
    decreases MAX_VARIABLE_DEREF_DEPTH - depth, 4 + TargetSize(t) + Size(x)
  {
    var p := CombinationDerived(sh, op, Reference(t), x, env, depth);
    d := StoreDerived(sh, BinaryAssignment(op, t, x), env, p, t, p.value, p.value, depth);
  }

  lemma {:induction false} DereferenceDerived(sh: Shell, t: Target, env: Env, depth: nat) returns (d: Deriv)
    requires depth <= MAX_VARIABLE_DEREF_DEPTH
    requires Deref(sh, t, env, depth).Ok?
    ensures Witnesses(sh, d, Reference(t), env, Deref(sh, t, env, depth), depth)
    decreases MAX_VARIABLE_DEREF_DEPTH - depth, TargetSize(t)
  {
    var o := Deref(sh, t, env, depth);
    match t
    case Variable(n) =>
      var s := VariableText(sh, env, n);
      var p := TextDerived(sh, s.value, env, depth);
      d := Deriv(Reference(t), env, o.value, o.env, [p]);
    case ArrayElement(n, i) =>
      var k := ResultsAreDerived(sh, i, env, depth);
      var s := ElementText(sh, k.post, n, k.value);
      var p := TextDerived(sh, s.value, k.post, depth);
      d := Deriv(Reference(t), env, o.value, o.env, [k, p]);
  }

  lemma {:induction false} TextDerived(sh: Shell, text: string, env: Env, depth: nat) returns (d: Deriv)
    requires depth <= MAX_VARIABLE_DEREF_DEPTH
    requires EvalText(sh, text, env, depth).Ok?
    ensures Derives(sh, d) && sh.parse(text) == Some(d.expr) && d.pre == env
    ensures EvalText(sh, text, env, depth) == Yields(d)
    ensures depth + Nesting(d) + (if d.expr.Literal? then 0 else 1) <= MAX_VARIABLE_DEREF_DEPTH
    decreases MAX_VARIABLE_DEREF_DEPTH - depth, 0
  {
    var e := sh.parse(text).value;
    if e.Literal? {
      d := Deriv(e, env, e.value, env, []);
    } else {
      d := ResultsAreDerived(sh, e, env, depth + 1);
    }
  }

  lemma {:induction false} CombinationDerived(sh: Shell, op: BinaryOperator, l: Expr, r: Expr, env: Env, depth: nat)
    returns (d: Deriv)
    requires depth <= MAX_VARIABLE_DEREF_DEPTH
    requires ApplyBinary(sh, op, l, r, env, depth).Ok?
    ensures Witnesses(sh, d, BinaryOp(op, l, r), env, ApplyBinary(sh, op, l, r, env, depth), depth)
    decreases MAX_VARIABLE_DEREF_DEPTH - depth, 2 + Size(l) + Size(r)
  {
    var o := ApplyBinary(sh, op, l, r, env, depth);
    assert Eval(sh, l, env, depth).Ok?;
    var p := ResultsAreDerived(sh, l, env, depth);
    if (op.LogicalAnd? && p.value == 0) || (op.LogicalOr? && p.value != 0) {
      d := Deriv(BinaryOp(op, l, r), env, o.value, o.env, [p]);
      assert Combines(sh, d, op, l, r);
    } else {
      assert o == ApplyRight(sh, op, p.value, r, p.post, depth);
      assert Eval(sh, r, p.post, depth).Ok?;
      var q := ResultsAreDerived(sh, r, p.post, depth);
      d := Deriv(BinaryOp(op, l, r), env, o.value, o.env, [p, q]);
      assert Combines(sh, d, op, l, r);
    }
  }

  /** Extends the derivation of an assignment's right-hand side with the update of its target. */
  lemma {:induction false} StoreDerived(sh: Shell, e: Expr, env: Env, p: Deriv, t: Target, v: i64, shown: i64, depth: nat)
    returns (d: Deriv)
    requires depth + Nesting(p) <= MAX_VARIABLE_DEREF_DEPTH
    requires Derives(sh, p) && !e.Reference?
    requires Assign(sh, t, v, p.post, depth).Ok?
    ensures d.expr == e && d.pre == env && d.value == shown
    ensures Assign(sh, t, v, p.post, depth) == Ok(v, d.post)
    ensures d.sub != [] && d.sub[0] == p && Stores(sh, d, t, v)
    ensures forall k | 0 <= k < |d.sub| :: Derives(sh, d.sub[k])
    ensures depth + Nesting(d) <= MAX_VARIABLE_DEREF_DEPTH
    decreases MAX_VARIABLE_DEREF_DEPTH - depth, TargetSize(t)
  {
    var o := Assign(sh, t, v, p.post, depth);
    match t
    case Variable(_) => d := Deriv(e, env, shown, o.env, [p]);
    case ArrayElement(_, i) =>
      var k := ResultsAreDerived(sh, i, p.post, depth);
      d := Deriv(e, env, shown, o.env, [p, k]);
  }

  /** The evaluator's values are exactly the derivations whose dereference nesting fits the limit. */
  lemma EvaluatorIsBigStep(sh: Shell, e: Expr, env: Env, v: i64, post: Env, depth: nat)
    requires depth <= MAX_VARIABLE_DEREF_DEPTH
    ensures Eval(sh, e, env, depth) == Ok(v, post) <==>
            exists d: Deriv :: Witnesses(sh, d, e, env, Ok(v, post), depth)
  {
    if Eval(sh, e, env, depth) == Ok(v, post) {
      var d := ResultsAreDerived(sh, e, env, depth);
    }
    forall d: Deriv | Witnesses(sh, d, e, env, Ok(v, post), depth)
      ensures Eval(sh, e, env, depth) == Ok(v, post)
    {
      EvaluatorFindsDerivations(sh, d, depth);
    }
  }

  /** The unbounded semantics is deterministic, however deep its derivations nest. */
  lemma {:induction false} BigStepDeterministic(sh: Shell, d: Deriv, c: Deriv)
    requires Derives(sh, d) && Derives(sh, c)
    requires d.expr == c.expr && d.pre == c.pre
    ensures d.value == c.value && d.post == c.post
    decreases d
  {
    if d.sub != [] {
      assert SameQuestion(d.sub[0], c.sub[0]);
      BigStepDeterministic(sh, d.sub[0], c.sub[0]);
      if |d.sub| == 2 {
        assert SameQuestion(d.sub[1], c.sub[1]);
        BigStepDeterministic(sh, d.sub[1], c.sub[1]);
      }
    }
  }

  ghost predicate SameQuestion(d: Deriv, c: Deriv) {
    d.expr == c.expr && d.pre == c.pre
  }
}
