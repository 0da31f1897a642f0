/**
 * The meaning of `eval`, as functions from an expression and a scope stack to an outcome and
 * the new scope stack. The imperative evaluator in module Evaluator is proved to compute
 * exactly these; the lemmas in module EvalProperties state what they imply.
 *
 * User procedures may recurse without end, so every evaluation gets a `fuel` budget: each
 * nested `eval` spends one unit, and an evaluation that runs out yields `OutOfFuel`.
 */
module Semantics {
  import opened Wrappers
  import opened Numbers
  import opened Syntax
  import opened Builtins
  import opened Env

  type Scope = Stack<Expr>

  /** The library's older `eval` module (no `cond`) or the final evaluator. */
  datatype Release = Early | Final

  /** `ids` are all identifiers. */
  predicate AllIdentifiers(ids: seq<Expr>) {
    forall i :: 0 <= i < |ids| ==> ids[i].Identifier?
  }

  function Names(ids: seq<Expr>): (names: seq<string>)
    requires AllIdentifiers(ids)
    ensures |names| == |ids| && forall i :: 0 <= i < |ids| ==> names[i] == ids[i].name
  {
    if ids == [] then [] else [ids[0].name] + Names(ids[1..])
  }

  /** The frame of a procedure call: each parameter bound to its argument, later ones winning. */
  function Bind(params: seq<string>, args: seq<Expr>): (frame: Frame<Expr>)
    requires |params| == |args|
    ensures frame.Keys == set i | 0 <= i < |params| :: params[i]
  {
    if params == [] then map[]
    else Bind(params[..|params| - 1], args[..|args| - 1])[params[|params| - 1] := args[|args| - 1]]
  }

  /** `|after|` equals `|before|` and the frames below the top are the same. */
  predicate SameBelowTop(before: Scope, after: Scope) {
    |after| == |before| && (|before| > 0 ==> after[..|after| - 1] == before[..|before| - 1])
  }

  /** The dispatch of `eval` on the shape of the expression. */
  function EvalSpec(e: Expr, st: Scope, fuel: nat, rel: Release, ar: Arith): (out: (Outcome<Expr>, Scope))
    requires |st| > 0
    ensures SameBelowTop(st, out.1)
    decreases fuel, 0, 0
  {
    if fuel == 0 then (OutOfFuel, st)
    else
      match e
      case Identifier(id) =>
        (match Find(st, id)
         case Some(v) => Ok(v)
         case None => Err(UndefinedSymbol(id)), st)
      case Combination(es) =>
        if |es| == 0 then (Err(EmptyCombination), st)
        else if es[0] == Identifier("define") then DefineSpec(es, st, fuel - 1, rel, ar)
        else if es[0] == Identifier("cond") && rel == Final then CondSpec(es, 1, st, fuel - 1, rel, ar)
        else ApplySpec(es, st, fuel - 1, rel, ar)
      case _ => (Ok(e), st)
  }

  /** `(define name body)` and `(define (name params...) body)`. */
  function DefineSpec(es: seq<Expr>, st: Scope, fuel: nat, rel: Release, ar: Arith): (out: (Outcome<Expr>, Scope))
    requires |st| > 0 && |es| > 0
    ensures SameBelowTop(st, out.1)
    decreases fuel, 1, |es|
  {
    if |es| != 3 then (Err(InvalidSyntax), st)
    else
      match es[1]
      case Identifier(name) =>
        var (value, st1) := EvalSpec(es[2], st, fuel, rel, ar);
        if value.Ok? then (Ok(Void), Inserted(st1, name, value.value)) else (value, st1)
      case Combination(sig) =>
        if !AllIdentifiers(sig) || |sig| == 0 then (Err(InvalidSyntax), st)
        else (Ok(Void), Inserted(st, sig[0].name, Procedure(Names(sig[1..]), es[2])))
      case _ => (Err(InvalidSyntax), st)
  }

  /** The `cond` clauses from index `i` on. */
  function CondSpec(es: seq<Expr>, i: nat, st: Scope, fuel: nat, rel: Release, ar: Arith): (out: (Outcome<Expr>, Scope))
    requires |st| > 0 && 1 <= i <= |es|
    ensures SameBelowTop(st, out.1)
    decreases fuel, 1, |es| - i
  {
    if i == |es| then (Ok(Void), st)
    else
      match es[i]
      case Combination(clause) =>
        if |clause| != 2 then (Err(ExpectingPair), st)
        else
          var (test, st1) := EvalSpec(clause[0], st, fuel, rel, ar);
          if !test.Ok? then (test, st1)
          else if test.value == BooleanLiteral(false) then CondSpec(es, i + 1, st1, fuel, rel, ar)
          else EvalSpec(clause[1], st1, fuel, rel, ar)
      case _ => (Err(InvalidSyntax), st)
  }

  /** The arguments `es[i..]`, evaluated left to right after the values `acc` of earlier ones. */
  function ArgsSpec(es: seq<Expr>, i: nat, acc: seq<Expr>, st: Scope, fuel: nat, rel: Release, ar: Arith)
    : (out: (Outcome<seq<Expr>>, Scope))
    requires |st| > 0 && 1 <= i <= |es|
    ensures SameBelowTop(st, out.1)
    ensures out.0.Ok? ==> |out.0.value| == |acc| + |es| - i
    decreases fuel, 1, |es| - i
  {
    if i == |es| then (Ok(acc), st)
    else
      var (arg, st1) := EvalSpec(es[i], st, fuel, rel, ar);
      if !arg.Ok? then (arg.PropagateFailure(), st1)
      else ArgsSpec(es, i + 1, acc + [arg.value], st1, fuel, rel, ar)
  }

  /** An application: the operator first, then (for a procedure value) the arguments. */
  function ApplySpec(es: seq<Expr>, st: Scope, fuel: nat, rel: Release, ar: Arith): (out: (Outcome<Expr>, Scope))
    requires |st| > 0 && |es| > 0
    ensures SameBelowTop(st, out.1)
    decreases fuel, 2, 0
  {
    var (operand, st1) := EvalSpec(es[0], st, fuel, rel, ar);
    if !operand.Ok? then (operand, st1)
    else
      match operand.value
      case BuiltinProcedure(b) =>
        var (args, st2) := ArgsSpec(es, 1, [], st1, fuel, rel, ar);
        if !args.Ok? then (args.PropagateFailure(), st2)
        else (ApplyBuiltin(b, args.value, ar), st2)
      case Procedure(params, body) =>
        var (args, st2) := ArgsSpec(es, 1, [], st1, fuel, rel, ar);
        if !args.Ok? then (args.PropagateFailure(), st2)
        else if |params| != |args.value| then (Err(WrongNumberOfArguments), st2)
        else
          var (result, st3) := EvalSpec(body, st2 + [Bind(params, args.value)], fuel, rel, ar);
          assert st3[..|st3| - 1] == st2;
          (result, Popped(st3))
      case _ => (Err(NonProcedure(operand.value)), st1)
  }

  /** The root frame of the final evaluator: the nine builtin names and the two booleans. */
  function RootFrame(): (frame: Frame<Expr>)
    ensures frame.Keys == {"+", "-", "*", "/", "#t", "#f", ">", "<", "="}
  {
    map[
      "+" := BuiltinProcedure(Plus), "-" := BuiltinProcedure(Minus),
      "*" := BuiltinProcedure(Times), "/" := BuiltinProcedure(Over),
      "#t" := BooleanLiteral(true), "#f" := BooleanLiteral(false),
      ">" := BuiltinProcedure(Greater), "<" := BuiltinProcedure(Less),
      "=" := BuiltinProcedure(NumEqual)]
  }

  /** The root frame of the library's older `eval` module: only `+`, `-` and `*`. */
  function EarlyRootFrame(): (frame: Frame<Expr>)
    ensures frame.Keys == {"+", "-", "*"}
  {
    map["+" := BuiltinProcedure(Plus), "-" := BuiltinProcedure(EarlyMinus), "*" := BuiltinProcedure(Times)]
  }
}
