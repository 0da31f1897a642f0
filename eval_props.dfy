/** What the evaluator promises, stated over the functions of module Semantics. */
module EvalProperties {
  import opened Wrappers
  import opened Numbers
  import opened Syntax
  import opened Builtins
  import opened Env
  import opened Semantics

  /** An identifier evaluates to the binding of the innermost frame that has it. */
  lemma IdentifierLookup(id: string, st: Scope, fuel: nat, rel: Release, ar: Arith)
    requires |st| > 0 && fuel > 0
    ensures EvalSpec(Identifier(id), st, fuel, rel, ar).1 == st
    ensures EvalSpec(Identifier(id), st, fuel, rel, ar).0 == Err(UndefinedSymbol(id)) <==>
            forall i :: 0 <= i < |st| ==> id !in st[i]
    ensures EvalSpec(Identifier(id), st, fuel, rel, ar).0.Ok? ==>
            exists i :: Innermost(st, id, i) && EvalSpec(Identifier(id), st, fuel, rel, ar).0.value == st[i][id]
  {
    FindInnermost(st, id);
  }

  /** `()` is a syntax error, and literals and values evaluate to themselves. */
  lemma EmptyAndSelfEvaluating(e: Expr, st: Scope, fuel: nat, rel: Release, ar: Arith)
    requires |st| > 0 && fuel > 0
    ensures EvalSpec(Combination([]), st, fuel, rel, ar) == (Err(EmptyCombination), st)
    ensures !e.Identifier? && !e.Combination? ==> EvalSpec(e, st, fuel, rel, ar) == (Ok(e), st)
  {
  }

  /**
   * A `define` form with the wrong number of parts, or whose name part is neither an
   * identifier nor a non-empty list of identifiers, is "Invalid syntax" and changes nothing,
   * whatever the stack binds (so also when it binds `define` itself).
   */
  lemma DefineSyntaxErrors(es: seq<Expr>, st: Scope, fuel: nat, rel: Release, ar: Arith)
    requires |st| > 0 && fuel > 0 && |es| > 0 && es[0] == Identifier("define")
    requires |es| != 3 || !(es[1].Identifier? || (es[1].Combination? && |es[1].elems| > 0 && AllIdentifiers(es[1].elems)))
    ensures EvalSpec(Combination(es), st, fuel, rel, ar) == (Err(InvalidSyntax), st)
  {
  }

  /**
   * `(define x body)` evaluates `body` first; only when that succeeds is `x` bound, in the top
   * frame, and the result is Void. Every other name looks up what it did after `body`.
   */
  lemma DefineVariable(x: string, body: Expr, st: Scope, fuel: nat, rel: Release, ar: Arith)
    requires |st| > 0 && fuel > 0
    ensures
      var (r, st') := EvalSpec(Combination([Identifier("define"), Identifier(x), body]), st, fuel, rel, ar);
      var (v, st1) := EvalSpec(body, st, fuel - 1, rel, ar);
      && (v.Ok? ==> r == Ok(Void) && Find(st', x) == Some(v.value) && SameBelowTop(st1, st')
                    && forall y :: y != x ==> Find(st', y) == Find(st1, y))
      && (!v.Ok? ==> r == v && st' == st1)
  {
    var (v, st1) := EvalSpec(body, st, fuel - 1, rel, ar);
    if v.Ok? {
      forall y | true
        ensures Find(Inserted(st1, x, v.value), x) == Some(v.value)
        ensures y != x ==> Find(Inserted(st1, x, v.value), y) == Find(st1, y)
      {
        InsertThenFind(st1, x, v.value, y);
      }
    }
  }

  function Identifiers(names: seq<string>): (ids: seq<Expr>)
    ensures AllIdentifiers(ids) && Names(ids) == names
  {
    if names == [] then [] else [Identifier(names[0])] + Identifiers(names[1..])
  }

  /**
   * `(define (f p1 ... pn) body)` binds `f` to a procedure with those parameters and that
   * body, without evaluating the body: the result is the same for every fuel.
   */
  lemma DefineProcedure(f: string, params: seq<string>, body: Expr, st: Scope, fuel: nat, rel: Release, ar: Arith)
    requires |st| > 0 && fuel > 0
    ensures
      var form := Combination([Identifier("define"), Combination([Identifier(f)] + Identifiers(params)), body]);
      var (r, st') := EvalSpec(form, st, fuel, rel, ar);
      && r == Ok(Void) && SameBelowTop(st, st') && Find(st', f) == Some(Procedure(params, body))
      && forall y :: y != f ==> Find(st', y) == Find(st, y)
  {
    var sig := [Identifier(f)] + Identifiers(params);
    assert sig[1..] == Identifiers(params);
    forall y | true
      ensures Find(Inserted(st, f, Procedure(params, body)), f) == Some(Procedure(params, body))
      ensures y != f ==> Find(Inserted(st, f, Procedure(params, body)), y) == Find(st, y)
    {
      InsertThenFind(st, f, Procedure(params, body), y);
    }
  }

  /** A clause that is not a list is "Invalid syntax"; a list of other than two is "Expecting pair". */
  lemma CondClauseErrors(es: seq<Expr>, i: nat, st: Scope, fuel: nat, rel: Release, ar: Arith)
    requires |st| > 0 && 1 <= i < |es|
    requires !es[i].Combination? || |es[i].elems| != 2
    ensures CondSpec(es, i, st, fuel, rel, ar) ==
            (if es[i].Combination? then Err(ExpectingPair) else Err(InvalidSyntax), st)
  {
  }

  /**
   * A clause whose test evaluates to anything but `#f` yields its consequent's evaluation;
   * the clauses after it are neither evaluated nor shape-checked, whatever they are.
   */
  lemma CondFirstMatch(es: seq<Expr>, tail: seq<Expr>, i: nat, st: Scope, fuel: nat, rel: Release, ar: Arith)
    requires |st| > 0 && 1 <= i < |es|
    requires es[i].Combination? && |es[i].elems| == 2
    requires
      var test := EvalSpec(es[i].elems[0], st, fuel, rel, ar).0;
      test.Ok? && test.value != BooleanLiteral(false)
    ensures CondSpec(es + tail, i, st, fuel, rel, ar) ==
            EvalSpec(es[i].elems[1], EvalSpec(es[i].elems[0], st, fuel, rel, ar).1, fuel, rel, ar)
  {
    assert (es + tail)[i] == es[i];
  }

  /** Clauses `es[i..]` are all pairs whose tests, evaluated in turn, give `#f`. */
  ghost predicate AllTestsFalse(es: seq<Expr>, i: nat, st: Scope, fuel: nat, rel: Release, ar: Arith)
    requires |st| > 0 && 1 <= i <= |es|
    decreases |es| - i
  {
    i == |es| ||
    (es[i].Combination? && |es[i].elems| == 2 &&
     var (test, st1) := EvalSpec(es[i].elems[0], st, fuel, rel, ar);
     test == Ok(BooleanLiteral(false)) && AllTestsFalse(es, i + 1, st1, fuel, rel, ar))
  }

  /** When no clause matches, `cond` yields Void. */
  lemma {:induction false} CondNoMatch(es: seq<Expr>, i: nat, st: Scope, fuel: nat, rel: Release, ar: Arith)
    requires |st| > 0 && 1 <= i <= |es|
    requires AllTestsFalse(es, i, st, fuel, rel, ar)
    ensures CondSpec(es, i, st, fuel, rel, ar).0 == Ok(Void)
    decreases |es| - i
  {
    if i < |es| {
      var st1 := EvalSpec(es[i].elems[0], st, fuel, rel, ar).1;
      CondNoMatch(es, i + 1, st1, fuel, rel, ar);
    }
  }

  /** In the final evaluator a `cond` form is its clauses, evaluated from the first. */
  lemma CondForm(es: seq<Expr>, st: Scope, fuel: nat, ar: Arith)
    requires |st| > 0 && fuel > 0 && |es| > 0 && es[0] == Identifier("cond")
    ensures EvalSpec(Combination(es), st, fuel, Final, ar) == CondSpec(es, 1, st, fuel - 1, Final, ar)
  {
  }

  /** The older evaluator has no `cond`: where nothing binds it, the name is undefined. */
  lemma EarlyHasNoCond(clauses: seq<Expr>, st: Scope, fuel: nat, ar: Arith)
    requires |st| > 0 && fuel > 1 && Find(st, "cond").None?
    ensures EvalSpec(Combination([Identifier("cond")] + clauses), st, fuel, Early, ar) ==
            (Err(UndefinedSymbol("cond")), st)
  {
    var es := [Identifier("cond")] + clauses;
    assert es[0] == Identifier("cond");
    assert EvalSpec(es[0], st, fuel - 1, Early, ar) == (Err(UndefinedSymbol("cond")), st);
  }

  /** The operator and a non-special head: no `define`, and no `cond` in the final evaluator. */
  predicate IsApplication(es: seq<Expr>, rel: Release) {
    |es| > 0 && es[0] != Identifier("define") && (rel == Final ==> es[0] != Identifier("cond"))
  }

  /**
   * An operator that evaluates to something other than a procedure is an error naming that
   * value; the arguments are not evaluated, so they do not matter.
   */
  lemma NonProcedureOperator(es: seq<Expr>, st: Scope, fuel: nat, rel: Release, ar: Arith)
    requires |st| > 0 && fuel > 0 && IsApplication(es, rel)
    requires
      var op := EvalSpec(es[0], st, fuel - 1, rel, ar).0;
      op.Ok? && !op.value.Procedure? && !op.value.BuiltinProcedure?
    ensures EvalSpec(Combination(es), st, fuel, rel, ar) ==
            (Err(NonProcedure(EvalSpec(es[0], st, fuel - 1, rel, ar).0.value)), EvalSpec(es[0], st, fuel - 1, rel, ar).1)
  {
  }

  /**
   * A user-procedure call: the operator, then every argument, left to right; an argument's
   * failure is returned before the arity is looked at; a count mismatch is an error with no
   * frame pushed; otherwise the body runs on the caller's stack plus one frame binding the
   * parameters, and afterwards the caller's stack is exactly as the arguments left it, whether
   * the body succeeded or not.
   */
  lemma ProcedureCall(es: seq<Expr>, st: Scope, fuel: nat, rel: Release, ar: Arith)
    requires |st| > 0 && fuel > 0 && IsApplication(es, rel)
    requires
      var op := EvalSpec(es[0], st, fuel - 1, rel, ar).0;
      op.Ok? && op.value.Procedure?
    ensures
      var (op, st1) := EvalSpec(es[0], st, fuel - 1, rel, ar);
      var (args, st2) := ArgsSpec(es, 1, [], st1, fuel - 1, rel, ar);
      var (r, st') := EvalSpec(Combination(es), st, fuel, rel, ar);
      && (!args.Ok? ==> r == args.PropagateFailure() && st' == st2)
      && (args.Ok? && |args.value| != |op.value.params| ==> r == Err(WrongNumberOfArguments) && st' == st2)
      && (args.Ok? && |args.value| == |op.value.params| ==>
            r == EvalSpec(op.value.body, st2 + [Bind(op.value.params, args.value)], fuel - 1, rel, ar).0
            && st' == st2)
  {
    var (op, st1) := EvalSpec(es[0], st, fuel - 1, rel, ar);
    var (args, st2) := ArgsSpec(es, 1, [], st1, fuel - 1, rel, ar);
    if args.Ok? && |args.value| == |op.value.params| {
      var pushed := st2 + [Bind(op.value.params, args.value)];
      var st3 := EvalSpec(op.value.body, pushed, fuel - 1, rel, ar).1;
      assert pushed[..|pushed| - 1] == st2;
    }
  }

  /** A builtin call: the operator, then every argument, then the native procedure. */
  lemma BuiltinCall(es: seq<Expr>, st: Scope, fuel: nat, rel: Release, ar: Arith)
    requires |st| > 0 && fuel > 0 && IsApplication(es, rel)
    requires
      var op := EvalSpec(es[0], st, fuel - 1, rel, ar).0;
      op.Ok? && op.value.BuiltinProcedure?
    ensures
      var (op, st1) := EvalSpec(es[0], st, fuel - 1, rel, ar);
      var (args, st2) := ArgsSpec(es, 1, [], st1, fuel - 1, rel, ar);
      EvalSpec(Combination(es), st, fuel, rel, ar) ==
        (if args.Ok? then ApplyBuiltin(op.value.op, args.value, ar) else args.PropagateFailure(), st2)
  {
  }

  /**
   * Procedures are not closures: a name that is free in the body is looked up, at call time,
   * in the stack of the caller.
   */
  lemma DynamicScope(f: string, g: string, st: Scope, fuel: nat, rel: Release, ar: Arith)
    requires |st| > 0 && fuel >= 2 && f != "define" && f != "cond"
    requires Find(st, f) == Some(Procedure([], Identifier(g)))
    ensures EvalSpec(Combination([Identifier(f)]), st, fuel, rel, ar) ==
            (match Find(st, g) case Some(v) => Ok(v) case None => Err(UndefinedSymbol(g)), st)
  {
    var es := [Identifier(f)];
    assert EvalSpec(es[0], st, fuel - 1, rel, ar) == (Ok(Procedure([], Identifier(g))), st);
    assert ArgsSpec(es, 1, [], st, fuel - 1, rel, ar) == (Ok([]), st);
    assert Bind([], []) == map[];
    PushKeepsLookups(st, g);
    var inner := EvalSpec(Identifier(g), st + [map[]], fuel - 1, rel, ar);
    assert inner.1 == st + [map[]];
    assert Popped(st + [map[]]) == st;
  }
}
