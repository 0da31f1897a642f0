/**
 * The evaluator's own test cases, stated over the specification and evaluated in the root
 * environment of the final evaluator.
 */
module EvalExamples {
  import opened Wrappers
  import opened Numbers
  import opened Syntax
  import opened Builtins
  import opened Env
  import opened Semantics
  import opened EvalProperties

  function N(i: int): Expr { NumberLiteral(Int(i)) }
  function Call(op: Expr, args: seq<Expr>): Expr { Combination([op] + args) }

  /** Arguments that each evaluate to a value without touching the stack give those values. */
  lemma {:induction false} ArgsOfValues(es: seq<Expr>, i: nat, acc: seq<Expr>, vals: seq<Expr>, st: Scope, fuel: nat, rel: Release, ar: Arith)
    requires |st| > 0 && 1 <= i <= |es| && |vals| == |es| - i
    requires forall k :: i <= k < |es| ==> EvalSpec(es[k], st, fuel, rel, ar) == (Ok(vals[k - i]), st)
    ensures ArgsSpec(es, i, acc, st, fuel, rel, ar) == (Ok(acc + vals), st)
    decreases |es| - i
  {
    if i == |es| {
      assert acc + vals == acc;
    } else {
      forall k | i + 1 <= k < |es|
        ensures EvalSpec(es[k], st, fuel, rel, ar) == (Ok(vals[1..][k - (i + 1)]), st)
      {
        assert vals[1..][k - (i + 1)] == vals[k - i];
      }
      ArgsOfValues(es, i + 1, acc + [vals[0]], vals[1..], st, fuel, rel, ar);
      assert acc + [vals[0]] + vals[1..] == acc + vals;
    }
  }

  /** A combination whose head is no special form is an application. */
  lemma ApplicationStep(es: seq<Expr>, st: Scope, fuel: nat, rel: Release, ar: Arith)
    requires |st| > 0 && fuel > 0 && IsApplication(es, rel)
    ensures EvalSpec(Combination(es), st, fuel, rel, ar) == ApplySpec(es, st, fuel - 1, rel, ar)
  {
  }

  /** Arguments `args` after the head `es[0]` that evaluate to `vals`, as the application sees them. */
  lemma ArgsAfterHead(op: Expr, args: seq<Expr>, vals: seq<Expr>, st: Scope, fuel: nat, rel: Release, ar: Arith)
    requires |st| > 0 && |vals| == |args|
    requires forall k :: 0 <= k < |args| ==> EvalSpec(args[k], st, fuel, rel, ar) == (Ok(vals[k]), st)
    ensures ArgsSpec([op] + args, 1, [], st, fuel, rel, ar) == (Ok(vals), st)
  {
    var es := [op] + args;
    forall k | 1 <= k < |es|
      ensures EvalSpec(es[k], st, fuel, rel, ar) == (Ok(vals[k - 1]), st)
    {
      assert es[k] == args[k - 1];
    }
    ArgsOfValues(es, 1, [], vals, st, fuel, rel, ar);
    assert [] + vals == vals;
  }

  /** Applying a builtin operator to arguments that evaluate to `vals`. */
  lemma ApplyBuiltinValues(es: seq<Expr>, b: Builtin, vals: seq<Expr>, st: Scope, fuel: nat, rel: Release, ar: Arith)
    requires |st| > 0 && |es| > 0
    requires EvalSpec(es[0], st, fuel, rel, ar) == (Ok(BuiltinProcedure(b)), st)
    requires ArgsSpec(es, 1, [], st, fuel, rel, ar) == (Ok(vals), st)
    ensures ApplySpec(es, st, fuel, rel, ar) == (ApplyBuiltin(b, vals, ar), st)
  {
  }

  /** Applying a user procedure to arguments that evaluate to `vals`: its body on one more frame. */
  lemma ApplyProcedureValues(es: seq<Expr>, params: seq<string>, body: Expr, vals: seq<Expr>, st: Scope, fuel: nat, rel: Release, ar: Arith)
    requires |st| > 0 && |es| > 0 && |params| == |vals|
    requires EvalSpec(es[0], st, fuel, rel, ar) == (Ok(Procedure(params, body)), st)
    requires ArgsSpec(es, 1, [], st, fuel, rel, ar) == (Ok(vals), st)
    ensures ApplySpec(es, st, fuel, rel, ar) == (EvalSpec(body, st + [Bind(params, vals)], fuel, rel, ar).0, st)
  {
    var st3 := EvalSpec(body, st + [Bind(params, vals)], fuel, rel, ar).1;
    assert st3[..|st3| - 1] == st;
  }

  /** A call of a name bound to a builtin, whose arguments evaluate to `vals`. */
  lemma BuiltinOnValues(op: string, b: Builtin, args: seq<Expr>, vals: seq<Expr>, st: Scope, fuel: nat, rel: Release, ar: Arith)
    requires |st| > 0 && fuel >= 2 && op != "define" && op != "cond"
    requires Find(st, op) == Some(BuiltinProcedure(b)) && |vals| == |args|
    requires forall k :: 0 <= k < |args| ==> EvalSpec(args[k], st, fuel - 1, rel, ar) == (Ok(vals[k]), st)
    ensures EvalSpec(Call(Identifier(op), args), st, fuel, rel, ar) == (ApplyBuiltin(b, vals, ar), st)
  {
    var es := [Identifier(op)] + args;
    ApplicationStep(es, st, fuel, rel, ar);
    ArgsAfterHead(Identifier(op), args, vals, st, fuel - 1, rel, ar);
    assert EvalSpec(es[0], st, fuel - 1, rel, ar) == (Ok(BuiltinProcedure(b)), st);
    ApplyBuiltinValues(es, b, vals, st, fuel - 1, rel, ar);
  }

  /** A call of a name bound to a user procedure, whose arguments evaluate to `vals`. */
  lemma ProcedureOnValues(f: string, params: seq<string>, body: Expr, args: seq<Expr>, vals: seq<Expr>,
                          st: Scope, fuel: nat, rel: Release, ar: Arith)
    requires |st| > 0 && fuel >= 2 && f != "define" && f != "cond"
    requires Find(st, f) == Some(Procedure(params, body)) && |vals| == |args| == |params|
    requires forall k :: 0 <= k < |args| ==> EvalSpec(args[k], st, fuel - 1, rel, ar) == (Ok(vals[k]), st)
    ensures EvalSpec(Call(Identifier(f), args), st, fuel, rel, ar) ==
            (EvalSpec(body, st + [Bind(params, vals)], fuel - 1, rel, ar).0, st)
  {
    var es := [Identifier(f)] + args;
    ApplicationStep(es, st, fuel, rel, ar);
    ArgsAfterHead(Identifier(f), args, vals, st, fuel - 1, rel, ar);
    assert EvalSpec(es[0], st, fuel - 1, rel, ar) == (Ok(Procedure(params, body)), st);
    ApplyProcedureValues(es, params, body, vals, st, fuel - 1, rel, ar);
  }

  /** A two-argument call of a builtin, whose arguments evaluate to `vx` and `vy`. */
  lemma BinaryCall(op: string, b: Builtin, x: Expr, y: Expr, vx: Expr, vy: Expr, st: Scope, fuel: nat, ar: Arith)
    requires |st| > 0 && fuel >= 2 && op != "define" && op != "cond"
    requires Find(st, op) == Some(BuiltinProcedure(b))
    requires EvalSpec(x, st, fuel - 1, Final, ar) == (Ok(vx), st)
    requires EvalSpec(y, st, fuel - 1, Final, ar) == (Ok(vy), st)
    ensures EvalSpec(Call(Identifier(op), [x, y]), st, fuel, Final, ar) == (ApplyBuiltin(b, [vx, vy], ar), st)
  {
    BuiltinOnValues(op, b, [x, y], [vx, vy], st, fuel, Final, ar);
  }

  /** `+`, `-` and `*` of two integers. */
  lemma IntegerOperators(a: int, b: int, ar: Arith)
    ensures ApplyBuiltin(Plus, [N(a), N(b)], ar) == Ok(N(a + b))
    ensures ApplyBuiltin(Minus, [N(a), N(b)], ar) == Ok(N(a - b))
    ensures ApplyBuiltin(Times, [N(a), N(b)], ar) == Ok(N(a * b))
  {
    AddOfInts([N(a), N(b)], ar);
    SubOfInts([N(a), N(b)], ar);
    MulOfInts([N(a), N(b)], ar);
    assert [N(a), N(b)][1..] == [N(b)];
    assert [N(b)][1..] == [];
    assert IntProduct([N(a), N(b)]) == a * IntProduct([N(b)]) == a * (b * 1);
  }

  /** In the root environment, an integer literal evaluates to itself at any fuel. */
  lemma Literal(i: int, fuel: nat, ar: Arith)
    requires fuel > 0
    ensures EvalSpec(N(i), [RootFrame()], fuel, Final, ar) == (Ok(N(i)), [RootFrame()])
  {
  }

  /** `486`, `#t` and `#f`. */
  lemma Literals(fuel: nat, ar: Arith)
    requires fuel >= 1
    ensures EvalSpec(N(486), [RootFrame()], fuel, Final, ar).0 == Ok(N(486))
    ensures EvalSpec(Identifier("#t"), [RootFrame()], fuel, Final, ar).0 == Ok(BooleanLiteral(true))
    ensures EvalSpec(Identifier("#f"), [RootFrame()], fuel, Final, ar).0 == Ok(BooleanLiteral(false))
  {
  }

  /** `(op a b)` on two integer literals in the root environment. */
  lemma RootBinary(op: string, b: Builtin, x: int, y: int, fuel: nat, ar: Arith)
    requires fuel >= 2 && op in {"+", "-", "*"}
    requires b == (if op == "+" then Plus else if op == "-" then Minus else Times)
    ensures EvalSpec(Call(Identifier(op), [N(x), N(y)]), [RootFrame()], fuel, Final, ar) ==
            (Ok(N(if op == "+" then x + y else if op == "-" then x - y else x * y)), [RootFrame()])
  {
    Literal(x, fuel - 1, ar);
    Literal(y, fuel - 1, ar);
    BinaryCall(op, b, N(x), N(y), N(x), N(y), [RootFrame()], fuel, ar);
    IntegerOperators(x, y, ar);
  }

  /** `(+ 137 349)`, `(- 1000 334)` and `(* 5 99)`. */
  lemma SimpleArithmetic(fuel: nat, ar: Arith)
    requires fuel >= 2
    ensures EvalSpec(Call(Identifier("+"), [N(137), N(349)]), [RootFrame()], fuel, Final, ar).0 == Ok(N(486))
    ensures EvalSpec(Call(Identifier("-"), [N(1000), N(334)]), [RootFrame()], fuel, Final, ar).0 == Ok(N(666))
    ensures EvalSpec(Call(Identifier("*"), [N(5), N(99)]), [RootFrame()], fuel, Final, ar).0 == Ok(N(495))
  {
    RootBinary("+", Plus, 137, 349, fuel, ar);
    RootBinary("-", Minus, 1000, 334, fuel, ar);
    RootBinary("*", Times, 5, 99, fuel, ar);
  }

  /** `(- 42)` and `(/ 10 5)`, for the integer negation and division the tests expect. */
  lemma NegationAndDivision(fuel: nat, ar: Arith)
    requires fuel >= 2 && AgreesWithTests(ar)
    ensures EvalSpec(Call(Identifier("-"), [N(42)]), [RootFrame()], fuel, Final, ar).0 == Ok(N(-42))
    ensures EvalSpec(Call(Identifier("/"), [N(10), N(5)]), [RootFrame()], fuel, Final, ar).0 == Ok(N(2))
  {
    Literal(42, fuel - 1, ar);
    Literal(10, fuel - 1, ar);
    Literal(5, fuel - 1, ar);
    BuiltinOnValues("-", Minus, [N(42)], [N(42)], [RootFrame()], fuel, Final, ar);
    BinaryCall("/", Over, N(10), N(5), N(10), N(5), [RootFrame()], fuel, ar);
    assert [N(10), N(5)][1..] == [N(5)];
    assert TryFold(Int(10), [N(5)], ar.div) == TryFold(ar.div(Int(10), Int(5)), [], ar.div) == Ok(Int(2));
  }

  function E24(): Expr { Call(Identifier("*"), [N(2), N(4)]) }
  function E35(): Expr { Call(Identifier("+"), [N(3), N(5)]) }
  function Inner(): Expr { Call(Identifier("+"), [E24(), E35()]) }
  function Left(): Expr { Call(Identifier("*"), [N(3), Inner()]) }
  function Right(): Expr { Call(Identifier("+"), [Call(Identifier("-"), [N(10), N(7)]), N(6)]) }

  lemma InnerIs16(fuel: nat, ar: Arith)
    requires fuel >= 3
    ensures EvalSpec(Inner(), [RootFrame()], fuel, Final, ar) == (Ok(N(16)), [RootFrame()])
  {
    RootBinary("*", Times, 2, 4, fuel - 1, ar);
    RootBinary("+", Plus, 3, 5, fuel - 1, ar);
    BinaryCall("+", Plus, E24(), E35(), N(8), N(8), [RootFrame()], fuel, ar);
    IntegerOperators(8, 8, ar);
  }

  lemma LeftIs48(fuel: nat, ar: Arith)
    requires fuel >= 4
    ensures EvalSpec(Left(), [RootFrame()], fuel, Final, ar) == (Ok(N(48)), [RootFrame()])
  {
    InnerIs16(fuel - 1, ar);
    Literal(3, fuel - 1, ar);
    BinaryCall("*", Times, N(3), Inner(), N(3), N(16), [RootFrame()], fuel, ar);
    IntegerOperators(3, 16, ar);
  }

  lemma RightIs9(fuel: nat, ar: Arith)
    requires fuel >= 4
    ensures EvalSpec(Right(), [RootFrame()], fuel, Final, ar) == (Ok(N(9)), [RootFrame()])
  {
    RootBinary("-", Minus, 10, 7, fuel - 1, ar);
    Literal(6, fuel - 1, ar);
    BinaryCall("+", Plus, Call(Identifier("-"), [N(10), N(7)]), N(6), N(3), N(6), [RootFrame()], fuel, ar);
    IntegerOperators(3, 6, ar);
  }

  /** `(+ (* 3 (+ (* 2 4) (+ 3 5))) (+ (- 10 7) 6))` is 57. */
  lemma ComplexArithmetic(fuel: nat, ar: Arith)
    requires fuel >= 5
    ensures EvalSpec(Call(Identifier("+"), [
              Call(Identifier("*"), [N(3), Call(Identifier("+"), [Call(Identifier("*"), [N(2), N(4)]),
                                                                    Call(Identifier("+"), [N(3), N(5)])])]),
              Call(Identifier("+"), [Call(Identifier("-"), [N(10), N(7)]), N(6)])]),
            [RootFrame()], fuel, Final, ar).0 == Ok(N(57))
  {
    LeftIs48(fuel - 1, ar);
    RightIs9(fuel - 1, ar);
    BinaryCall("+", Plus, Left(), Right(), N(48), N(9), [RootFrame()], fuel, ar);
    IntegerOperators(48, 9, ar);
  }

  /** `(define size 2) size`. */
  lemma SimpleDefine(fuel: nat, ar: Arith)
    requires fuel >= 2
    ensures
      var st1 := EvalSpec(Call(Identifier("define"), [Identifier("size"), N(2)]), [RootFrame()], fuel, Final, ar).1;
      |st1| > 0 && EvalSpec(Identifier("size"), st1, fuel, Final, ar).0 == Ok(N(2))
  {
    assert Call(Identifier("define"), [Identifier("size"), N(2)]) ==
           Combination([Identifier("define"), Identifier("size"), N(2)]);
    DefineVariable("size", N(2), [RootFrame()], fuel, Final, ar);
  }

  function SquareBody(): Expr { Call(Identifier("*"), [Identifier("x"), Identifier("x")]) }
  function SumOfSquaresBody(): Expr {
    Call(Identifier("+"), [Call(Identifier("square"), [Identifier("x")]), Call(Identifier("square"), [Identifier("y")])])
  }
  function FBody(): Expr {
    Call(Identifier("sum-of-squares"), [Call(Identifier("+"), [Identifier("a"), N(1)]), Call(Identifier("*"), [Identifier("a"), N(2)])])
  }

  /** `(define (name params...) body)` as the parser produces it. */
  function DefineForm(name: string, params: seq<string>, body: Expr): Expr {
    Call(Identifier("define"), [Call(Identifier(name), Identifiers(params)), body])
  }

  /** A stack on which `+`, `*` and `square` are what the tests define them to be. */
  predicate HasSquare(st: Scope) {
    && Find(st, "+") == Some(BuiltinProcedure(Plus))
    && Find(st, "*") == Some(BuiltinProcedure(Times))
    && Find(st, "square") == Some(Procedure(["x"], SquareBody()))
  }

  /** A frame that binds none of the names `HasSquare` and `sum-of-squares` look up keeps them. */
  lemma FrameKeepsNames(st: Scope, frame: Frame<Expr>)
    requires HasSquare(st)
    requires "+" !in frame && "*" !in frame && "square" !in frame && "sum-of-squares" !in frame
    ensures HasSquare(st + [frame])
    ensures Find(st + [frame], "sum-of-squares") == Find(st, "sum-of-squares")
  {
    FindThroughTop(st, frame, "+");
    FindThroughTop(st, frame, "*");
    FindThroughTop(st, frame, "square");
    FindThroughTop(st, frame, "sum-of-squares");
  }

  /** A name bound in a frame on top evaluates to its binding, at any fuel. */
  lemma TopBinding(st: Scope, frame: Frame<Expr>, x: string, fuel: nat, ar: Arith)
    requires |st| > 0 && fuel > 0 && x in frame
    ensures EvalSpec(Identifier(x), st + [frame], fuel, Final, ar) == (Ok(frame[x]), st + [frame])
  {
    FindThroughTop(st, frame, x);
  }

  /** `(square arg)` squares what `arg` evaluates to. */
  lemma SquareOf(arg: Expr, v: int, st: Scope, fuel: nat, ar: Arith)
    requires |st| > 0 && fuel >= 3 && HasSquare(st)
    requires EvalSpec(arg, st, fuel - 1, Final, ar) == (Ok(N(v)), st)
    ensures EvalSpec(Call(Identifier("square"), [arg]), st, fuel, Final, ar) == (Ok(N(v * v)), st)
  {
    ProcedureOnValues("square", ["x"], SquareBody(), [arg], [N(v)], st, fuel, Final, ar);
    var frame := Bind(["x"], [N(v)]);
    assert frame == map["x" := N(v)];
    FrameKeepsNames(st, frame);
    TopBinding(st, frame, "x", fuel - 2, ar);
    BinaryCall("*", Times, Identifier("x"), Identifier("x"), N(v), N(v), st + [frame], fuel - 1, ar);
    IntegerOperators(v, v, ar);
  }

  lemma BindTwo(p: string, q: string, a: Expr, b: Expr)
    requires p != q
    ensures Bind([p, q], [a, b]) == map[p := a, q := b]
  {
    assert [p, q][..1] == [p];
    assert [a, b][..1] == [a];
    assert Bind([p], [a]) == map[p := a];
  }

  /** `(square x)` where `x` is bound on top of the stack to `v`. */
  lemma SquareOfBound(x: string, v: int, st: Scope, frame: Frame<Expr>, fuel: nat, ar: Arith)
    requires |st| > 0 && fuel >= 3 && HasSquare(st + [frame]) && x in frame && frame[x] == N(v)
    ensures EvalSpec(Call(Identifier("square"), [Identifier(x)]), st + [frame], fuel, Final, ar) == (Ok(N(v * v)), st + [frame])
  {
    TopBinding(st, frame, x, fuel - 1, ar);
    SquareOf(Identifier(x), v, st + [frame], fuel, ar);
  }

  /** The body of `sum-of-squares` in a frame binding `x` and `y`. */
  lemma SumOfSquaresBodyValue(vx: int, vy: int, st: Scope, fuel: nat, ar: Arith)
    requires |st| > 0 && fuel >= 4 && HasSquare(st)
    ensures
      var st' := st + [map["x" := N(vx), "y" := N(vy)]];
      EvalSpec(SumOfSquaresBody(), st', fuel, Final, ar) == (Ok(N(vx * vx + vy * vy)), st')
  {
    var frame := map["x" := N(vx), "y" := N(vy)];
    FrameKeepsNames(st, frame);
    SquareOfBound("x", vx, st, frame, fuel - 1, ar);
    SquareOfBound("y", vy, st, frame, fuel - 1, ar);
    BinaryCall("+", Plus, Call(Identifier("square"), [Identifier("x")]), Call(Identifier("square"), [Identifier("y")]),
               N(vx * vx), N(vy * vy), st + [frame], fuel, ar);
    IntegerOperators(vx * vx, vy * vy, ar);
  }

  /** `(sum-of-squares x y)` on two values. */
  lemma SumOfSquaresOf(x: Expr, y: Expr, vx: int, vy: int, st: Scope, fuel: nat, ar: Arith)
    requires |st| > 0 && fuel >= 5 && HasSquare(st)
    requires Find(st, "sum-of-squares") == Some(Procedure(["x", "y"], SumOfSquaresBody()))
    requires EvalSpec(x, st, fuel - 1, Final, ar) == (Ok(N(vx)), st)
    requires EvalSpec(y, st, fuel - 1, Final, ar) == (Ok(N(vy)), st)
    ensures EvalSpec(Call(Identifier("sum-of-squares"), [x, y]), st, fuel, Final, ar) == (Ok(N(vx * vx + vy * vy)), st)
  {
    ProcedureOnValues("sum-of-squares", ["x", "y"], SumOfSquaresBody(), [x, y], [N(vx), N(vy)], st, fuel, Final, ar);
    BindTwo("x", "y", N(vx), N(vy));
    SumOfSquaresBodyValue(vx, vy, st, fuel - 1, ar);
  }

  lemma DefineFormElements(f: string, params: seq<string>, body: Expr)
    ensures DefineForm(f, params, body) ==
            Combination([Identifier("define"), Combination([Identifier(f)] + Identifiers(params)), body])
  {
    assert [Identifier("define")] + [Call(Identifier(f), Identifiers(params)), body] ==
           [Identifier("define"), Call(Identifier(f), Identifiers(params)), body];
  }

  /** Defining a procedure keeps `+`, `*`, `square` and `sum-of-squares` when it does not rebind them. */
  lemma DefineKeepsSquare(f: string, params: seq<string>, body: Expr, st: Scope, fuel: nat, ar: Arith)
    requires |st| > 0 && fuel > 0 && HasSquare(st)
    requires f != "+" && f != "*" && f != "square" && f != "sum-of-squares"
    ensures
      var st' := EvalSpec(DefineForm(f, params, body), st, fuel, Final, ar).1;
      && |st'| > 0 && HasSquare(st') && Find(st', f) == Some(Procedure(params, body))
      && Find(st', "sum-of-squares") == Find(st, "sum-of-squares")
  {
    DefineFormElements(f, params, body);
    DefineProcedure(f, params, body, st, fuel, Final, ar);
  }

  /** `(define (square x) (* x x))` on a stack where `+` and `*` are the builtins. */
  lemma SquareDefined(st: Scope, fuel: nat, ar: Arith)
    requires |st| > 0 && fuel > 0
    requires Find(st, "+") == Some(BuiltinProcedure(Plus)) && Find(st, "*") == Some(BuiltinProcedure(Times))
    ensures
      var st' := EvalSpec(DefineForm("square", ["x"], SquareBody()), st, fuel, Final, ar).1;
      |st'| > 0 && HasSquare(st')
  {
    DefineFormElements("square", ["x"], SquareBody());
    DefineProcedure("square", ["x"], SquareBody(), st, fuel, Final, ar);
  }

  lemma RootArithmetic()
    ensures Find([RootFrame()], "+") == Some(BuiltinProcedure(Plus))
    ensures Find([RootFrame()], "*") == Some(BuiltinProcedure(Times))
  {
    FindThroughTop([], RootFrame(), "+");
    FindThroughTop([], RootFrame(), "*");
  }

  /** `(define (square x) (* x x)) (square 21)`, with enough fuel. */
  lemma SimpleProcedure(fuel: nat, ar: Arith)
    requires fuel >= 3
    ensures
      var st1 := EvalSpec(DefineForm("square", ["x"], SquareBody()), [RootFrame()], fuel, Final, ar).1;
      |st1| > 0 && EvalSpec(Call(Identifier("square"), [N(21)]), st1, fuel, Final, ar).0 == Ok(N(441))
  {
    RootArithmetic();
    SquareDefined([RootFrame()], fuel, ar);
    var st1 := EvalSpec(DefineForm("square", ["x"], SquareBody()), [RootFrame()], fuel, Final, ar).1;
    SquareOf(N(21), 21, st1, fuel, ar);
  }

  /** `(op a k)` where `a` is bound on top of the stack to `va`. */
  lemma OnTopBinding(op: string, b: Builtin, va: int, k: int, st: Scope, fuel: nat, ar: Arith)
    requires |st| > 0 && fuel >= 3 && (op, b) in {("+", Plus), ("*", Times)}
    requires Find(st, op) == Some(BuiltinProcedure(b))
    ensures
      var st' := st + [map["a" := N(va)]];
      EvalSpec(Call(Identifier(op), [Identifier("a"), N(k)]), st', fuel, Final, ar) ==
        (Ok(N(if op == "+" then va + k else va * k)), st')
  {
    var frame := map["a" := N(va)];
    FindThroughTop(st, frame, op);
    var st' := st + [frame];
    TopBinding(st, frame, "a", fuel - 1, ar);
    assert EvalSpec(N(k), st', fuel - 1, Final, ar) == (Ok(N(k)), st');
    BinaryCall(op, b, Identifier("a"), N(k), N(va), N(k), st', fuel, ar);
    IntegerOperators(va, k, ar);
  }

  /** The body of `f` in a frame binding `a`. */
  lemma FBodyValue(va: int, st: Scope, fuel: nat, ar: Arith)
    requires |st| > 0 && fuel >= 5 && HasSquare(st)
    requires Find(st, "sum-of-squares") == Some(Procedure(["x", "y"], SumOfSquaresBody()))
    ensures
      var st' := st + [map["a" := N(va)]];
      EvalSpec(FBody(), st', fuel, Final, ar) ==
        (Ok(N((va + 1) * (va + 1) + (va * 2) * (va * 2))), st')
  {
    var frame := map["a" := N(va)];
    FrameKeepsNames(st, frame);
    OnTopBinding("+", Plus, va, 1, st, fuel - 1, ar);
    OnTopBinding("*", Times, va, 2, st, fuel - 1, ar);
    SumOfSquaresOf(Call(Identifier("+"), [Identifier("a"), N(1)]), Call(Identifier("*"), [Identifier("a"), N(2)]),
                   va + 1, va * 2, st + [frame], fuel, ar);
  }

  /**
   * `(define (square x) (* x x))`, `(define (sum-of-squares x y) (+ (square x) (square y)))`,
   * `(define (f a) (sum-of-squares (+ a 1) (* a 2)))`, then `(f 5)` is 136.
   */
  lemma MoreProcedures(fuel: nat, ar: Arith)
    requires fuel >= 6
    ensures
      var st1 := EvalSpec(DefineForm("square", ["x"], SquareBody()), [RootFrame()], fuel, Final, ar).1;
      var st2 := EvalSpec(DefineForm("sum-of-squares", ["x", "y"], SumOfSquaresBody()), st1, fuel, Final, ar).1;
      var st3 := EvalSpec(DefineForm("f", ["a"], FBody()), st2, fuel, Final, ar).1;
      |st3| > 0 && EvalSpec(Call(Identifier("f"), [N(5)]), st3, fuel, Final, ar).0 == Ok(N(136))
  {
    RootArithmetic();
    SquareDefined([RootFrame()], fuel, ar);
    var st1 := EvalSpec(DefineForm("square", ["x"], SquareBody()), [RootFrame()], fuel, Final, ar).1;
    DefineFormElements("sum-of-squares", ["x", "y"], SumOfSquaresBody());
    DefineProcedure("sum-of-squares", ["x", "y"], SumOfSquaresBody(), st1, fuel, Final, ar);
    var st2 := EvalSpec(DefineForm("sum-of-squares", ["x", "y"], SumOfSquaresBody()), st1, fuel, Final, ar).1;
    FApplied(st2, 5, fuel, ar);
  }

  /** `(define (f a) ...)` then `(f va)`, on a stack that already has `square` and `sum-of-squares`. */
  lemma FApplied(st2: Scope, va: int, fuel: nat, ar: Arith)
    requires |st2| > 0 && fuel >= 6 && HasSquare(st2)
    requires Find(st2, "sum-of-squares") == Some(Procedure(["x", "y"], SumOfSquaresBody()))
    ensures
      var st3 := EvalSpec(DefineForm("f", ["a"], FBody()), st2, fuel, Final, ar).1;
      |st3| > 0 && EvalSpec(Call(Identifier("f"), [N(va)]), st3, fuel, Final, ar).0 ==
        Ok(N((va + 1) * (va + 1) + (va * 2) * (va * 2)))
  {
    DefineKeepsSquare("f", ["a"], FBody(), st2, fuel, ar);
    var st3 := EvalSpec(DefineForm("f", ["a"], FBody()), st2, fuel, Final, ar).1;
    ProcedureOnValues("f", ["a"], FBody(), [N(va)], [N(va)], st3, fuel, Final, ar);
    assert Bind(["a"], [N(va)]) == map["a" := N(va)];
    FBodyValue(va, st3, fuel - 1, ar);
  }

  /** In the older evaluator `-` has no unary case: `(- 5)` is 5, whatever negation is. */
  lemma EarlyUnaryMinus(fuel: nat, ar: Arith)
    requires fuel >= 2
    ensures EvalSpec(Call(Identifier("-"), [N(5)]), [EarlyRootFrame()], fuel, Early, ar).0 == Ok(N(5))
  {
    BuiltinOnValues("-", EarlyMinus, [N(5)], [N(5)], [EarlyRootFrame()], fuel, Early, ar);
  }
}
