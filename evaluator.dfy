/**
 * `eval` as it runs: a recursive procedure that threads one mutable `Environment` through
 * every call, inserting definitions into the top frame and pushing and popping one frame
 * around each user-procedure call. Each method is proved to compute the corresponding
 * function of module Semantics, new scope stack included.
 */
module Evaluator {
  import opened Numbers
  import opened Syntax
  import opened Builtins
  import opened Env
  import opened Semantics

  method Eval(e: Expr, env: Environment<Expr>, fuel: nat, rel: Release, ar: Arith) returns (r: Outcome<Expr>)
    requires |env.stack| > 0
    modifies env
    ensures (r, env.stack) == EvalSpec(e, old(env.stack), fuel, rel, ar)
    decreases fuel, 0, 0
  {
    if fuel == 0 {
      return OutOfFuel;
    }
    match e
    case Identifier(id) =>
      var found := env.Lookup(id);
      match found {
        case Some(v) => r := Ok(v);
        case None => r := Err(UndefinedSymbol(id));
      }
    case Combination(es) =>
      if |es| == 0 {
        r := Err(EmptyCombination);
      } else if es[0] == Identifier("define") {
        r := EvalDefine(es, env, fuel - 1, rel, ar);
      } else if es[0] == Identifier("cond") && rel == Final {
        r := EvalCond(es, env, fuel - 1, rel, ar);
      } else {
        r := EvalApply(es, env, fuel - 1, rel, ar);
      }
    case _ =>
      r := Ok(e);
  }

  method EvalDefine(es: seq<Expr>, env: Environment<Expr>, fuel: nat, rel: Release, ar: Arith)
    returns (r: Outcome<Expr>)
    requires |env.stack| > 0 && |es| > 0
    modifies env
    ensures (r, env.stack) == DefineSpec(es, old(env.stack), fuel, rel, ar)
    decreases fuel, 1, |es|
  {
    if |es| != 3 {
      return Err(InvalidSyntax);
    }
    match es[1]
    case Identifier(name) =>
      var value := Eval(es[2], env, fuel, rel, ar);
      if !value.Ok? {
        return value;
      }
      env.Insert(name, value.value);
      r := Ok(Void);
    case Combination(sig) =>
      if !AllIdentifiers(sig) || |sig| == 0 {
        return Err(InvalidSyntax);
      }
      var ids := Names(sig);
      var procName := ids[0];
      assert ids[1..] == Names(sig[1..]);
      env.Insert(procName, Procedure(ids[1..], es[2]));
      r := Ok(Void);
    case _ =>
      r := Err(InvalidSyntax);
  }

  method EvalCond(es: seq<Expr>, env: Environment<Expr>, fuel: nat, rel: Release, ar: Arith)
    returns (r: Outcome<Expr>)
    requires |env.stack| > 0 && |es| > 0
    modifies env
    ensures (r, env.stack) == CondSpec(es, 1, old(env.stack), fuel, rel, ar)
    decreases fuel, 1, |es|
  {
    for i := 1 to |es|
      invariant SameBelowTop(old(env.stack), env.stack)
      invariant CondSpec(es, 1, old(env.stack), fuel, rel, ar) == CondSpec(es, i, env.stack, fuel, rel, ar)
    {
      match es[i]
      case Combination(clause) =>
        if |clause| != 2 {
          return Err(ExpectingPair);
        }
        var test := Eval(clause[0], env, fuel, rel, ar);
        if !test.Ok? {
          return test;
        }
        if test.value != BooleanLiteral(false) {
          r := Eval(clause[1], env, fuel, rel, ar);
          return;
        }
      case _ =>
        return Err(InvalidSyntax);
    }
    r := Ok(Void);
  }

  /** Evaluates `es[1..]` left to right, stopping at the first failure. */
  method EvalArgs(es: seq<Expr>, env: Environment<Expr>, fuel: nat, rel: Release, ar: Arith)
    returns (args: Outcome<seq<Expr>>)
    requires |env.stack| > 0 && |es| > 0
    modifies env
    ensures (args, env.stack) == ArgsSpec(es, 1, [], old(env.stack), fuel, rel, ar)
    decreases fuel, 1, |es|
  {
    var values := [];
    var i := 1;
    while i < |es|
      invariant 1 <= i <= |es|
      invariant SameBelowTop(old(env.stack), env.stack)
      invariant ArgsSpec(es, 1, [], old(env.stack), fuel, rel, ar) == ArgsSpec(es, i, values, env.stack, fuel, rel, ar)
    {
      var arg := Eval(es[i], env, fuel, rel, ar);
      if !arg.Ok? {
        return arg.PropagateFailure();
      }
      values := values + [arg.value];
      i := i + 1;
    }
    return Ok(values);
  }

  /** The new frame of a procedure call: a pushed frame with each parameter bound to its argument. */
  method PushBindings(env: Environment<Expr>, params: seq<string>, values: seq<Expr>)
    requires |params| == |values|
    modifies env
    ensures env.stack == old(env.stack) + [Bind(params, values)]
  {
    ghost var caller := env.stack;
    env.Push();
    for j := 0 to |params|
      invariant env.stack == caller + [Bind(params[..j], values[..j])]
    {
      assert params[..j + 1][..j] == params[..j] && values[..j + 1][..j] == values[..j];
      env.Insert(params[j], values[j]);
    }
    assert params[..|params|] == params && values[..|values|] == values;
  }

  method EvalApply(es: seq<Expr>, env: Environment<Expr>, fuel: nat, rel: Release, ar: Arith)
    returns (r: Outcome<Expr>)
    requires |env.stack| > 0 && |es| > 0
    modifies env
    ensures (r, env.stack) == ApplySpec(es, old(env.stack), fuel, rel, ar)
    decreases fuel, 2, 0
  {
    var operand := Eval(es[0], env, fuel, rel, ar);
    if !operand.Ok? {
      return operand;
    }
    match operand.value
    case BuiltinProcedure(b) =>
      var args := EvalArgs(es, env, fuel, rel, ar);
      if !args.Ok? {
        return args.PropagateFailure();
      }
      r := ApplyBuiltin(b, args.value, ar);
    case Procedure(params, body) =>
      var args := EvalArgs(es, env, fuel, rel, ar);
      if !args.Ok? {
        return args.PropagateFailure();
      }
      var values := args.value;
      if |params| != |values| {
        return Err(WrongNumberOfArguments);
      }
      PushBindings(env, params, values);
      r := Eval(body, env, fuel, rel, ar);
      env.Pop();
    case _ =>
      r := Err(NonProcedure(operand.value));
  }

  /** `create_root_environment` of the final evaluator. */
  method CreateRootEnvironment() returns (env: Environment<Expr>)
    ensures fresh(env) && env.stack == [RootFrame()]
  {
    env := new Environment();
    env.Push();
    env.Insert("+", BuiltinProcedure(Plus));
    env.Insert("-", BuiltinProcedure(Minus));
    env.Insert("*", BuiltinProcedure(Times));
    env.Insert("/", BuiltinProcedure(Over));
    env.Insert("#t", BooleanLiteral(true));
    env.Insert("#f", BooleanLiteral(false));
    env.Insert(">", BuiltinProcedure(Greater));
    env.Insert("<", BuiltinProcedure(Less));
    env.Insert("=", BuiltinProcedure(NumEqual));
  }

  /** `create_root_environment` of the library's older `eval` module. */
  method CreateEarlyRootEnvironment() returns (env: Environment<Expr>)
    ensures fresh(env) && env.stack == [EarlyRootFrame()]
  {
    env := new Environment();
    env.Push();
    env.Insert("+", BuiltinProcedure(Plus));
    env.Insert("-", BuiltinProcedure(EarlyMinus));
    env.Insert("*", BuiltinProcedure(Times));
  }
}
