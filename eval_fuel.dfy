/**
 * Fuel is only a bound: an evaluation that finishes within some fuel finishes with the same
 * outcome and the same scope stack with any larger fuel. So a result other than `OutOfFuel`
 * is the result of the program itself.
 */
module FuelProperties {
  import opened Numbers
  import opened Syntax
  import opened Builtins
  import opened Env
  import opened Semantics

  lemma {:induction false} EvalMonotone(e: Expr, st: Scope, n: nat, m: nat, rel: Release, ar: Arith)
    requires |st| > 0 && n <= m && !EvalSpec(e, st, n, rel, ar).0.OutOfFuel?
    ensures EvalSpec(e, st, m, rel, ar) == EvalSpec(e, st, n, rel, ar)
    decreases n, 0, 0
  {
    match e
    case Combination(es) =>
      if |es| > 0 {
        if es[0] == Identifier("define") {
          DefineMonotone(es, st, n - 1, m - 1, rel, ar);
        } else if es[0] == Identifier("cond") && rel == Final {
          CondMonotone(es, 1, st, n - 1, m - 1, rel, ar);
        } else {
          ApplyMonotone(es, st, n - 1, m - 1, rel, ar);
        }
      }
    case _ =>
  }

  lemma {:induction false} DefineMonotone(es: seq<Expr>, st: Scope, n: nat, m: nat, rel: Release, ar: Arith)
    requires |st| > 0 && |es| > 0 && n <= m && !DefineSpec(es, st, n, rel, ar).0.OutOfFuel?
    ensures DefineSpec(es, st, m, rel, ar) == DefineSpec(es, st, n, rel, ar)
    decreases n, 1, |es|
  {
    if |es| == 3 && es[1].Identifier? {
      EvalMonotone(es[2], st, n, m, rel, ar);
    }
  }

  lemma {:induction false} CondMonotone(es: seq<Expr>, i: nat, st: Scope, n: nat, m: nat, rel: Release, ar: Arith)
    requires |st| > 0 && 1 <= i <= |es| && n <= m && !CondSpec(es, i, st, n, rel, ar).0.OutOfFuel?
    ensures CondSpec(es, i, st, m, rel, ar) == CondSpec(es, i, st, n, rel, ar)
    decreases n, 1, |es| - i
  {
    if i < |es| && es[i].Combination? && |es[i].elems| == 2 {
      var clause := es[i].elems;
      var (test, st1) := EvalSpec(clause[0], st, n, rel, ar);
      EvalMonotone(clause[0], st, n, m, rel, ar);
      if test.Ok? {
        if test.value == BooleanLiteral(false) {
          CondMonotone(es, i + 1, st1, n, m, rel, ar);
        } else {
          EvalMonotone(clause[1], st1, n, m, rel, ar);
        }
      }
    }
  }

  lemma {:induction false} ArgsMonotone(es: seq<Expr>, i: nat, acc: seq<Expr>, st: Scope, n: nat, m: nat, rel: Release, ar: Arith)
    requires |st| > 0 && 1 <= i <= |es| && n <= m && !ArgsSpec(es, i, acc, st, n, rel, ar).0.OutOfFuel?
    ensures ArgsSpec(es, i, acc, st, m, rel, ar) == ArgsSpec(es, i, acc, st, n, rel, ar)
    decreases n, 1, |es| - i
  {
    if i < |es| {
      var (arg, st1) := EvalSpec(es[i], st, n, rel, ar);
      EvalMonotone(es[i], st, n, m, rel, ar);
      if arg.Ok? {
        ArgsMonotone(es, i + 1, acc + [arg.value], st1, n, m, rel, ar);
      }
    }
  }

  lemma {:induction false} ApplyMonotone(es: seq<Expr>, st: Scope, n: nat, m: nat, rel: Release, ar: Arith)
    requires |st| > 0 && |es| > 0 && n <= m && !ApplySpec(es, st, n, rel, ar).0.OutOfFuel?
    ensures ApplySpec(es, st, m, rel, ar) == ApplySpec(es, st, n, rel, ar)
    decreases n, 2, 0
  {
    var (operand, st1) := EvalSpec(es[0], st, n, rel, ar);
    EvalMonotone(es[0], st, n, m, rel, ar);
    if operand.Ok? && (operand.value.BuiltinProcedure? || operand.value.Procedure?) {
      var (args, st2) := ArgsSpec(es, 1, [], st1, n, rel, ar);
      ArgsMonotone(es, 1, [], st1, n, m, rel, ar);
      if args.Ok? && operand.value.Procedure? && |operand.value.params| == |args.value| {
        EvalMonotone(operand.value.body, st2 + [Bind(operand.value.params, args.value)], n, m, rel, ar);
      }
    }
  }
}
