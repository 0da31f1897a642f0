/**
 * The oldest snapshot: its own `Expression` type with `Display`, and the stub `eval` of the
 * binary, which knows only `+` over integer literals.
 */
module EarlyExpression {
  import opened Wrappers
  import opened Numbers
  import opened Text

  datatype Expression =
    | Void
    | Combination(elements: seq<Expression>)
    | Identifier(id: string)
    | StringLiteral(text: string)
    | FloatLiteral(f: F64)
    | IntLiteral(i: int)

  /** `Display`: a combination as its elements joined by spaces inside parentheses. */
  function Display(e: Expression, fl: FloatLib): string
    decreases e, 1
  {
    match e
    case Combination(elements) => "(" + JoinSpaces(DisplayAll(elements, fl)) + ")"
    case Identifier(id) => id
    case StringLiteral(s) => "\"" + s + "\""
    case FloatLiteral(v) => fl.format(v)
    case IntLiteral(v) => IntDecimal(v)
    case Void => "#void"
  }

  function DisplayAll(es: seq<Expression>, fl: FloatLib): (r: seq<string>)
    ensures |r| == |es|
    ensures forall i :: 0 <= i < |es| ==> r[i] == Display(es[i], fl)
    decreases es, 0
  {
    if es == [] then [] else [Display(es[0], fl)] + DisplayAll(es[1..], fl)
  }

  /**
   * Each element of a combination appears verbatim in its display, after the opening
   * parenthesis or a space and before a space or the closing parenthesis; no elements display
   * as `()`.
   */
  lemma DisplayElement(es: seq<Expression>, i: nat, fl: FloatLib)
    requires i < |es|
    ensures Display(Combination([]), fl) == "()"
    ensures var parts := DisplayAll(es, fl);
      Display(Combination(es), fl) == "(" + Before(parts, i) + Display(es[i], fl) + After(parts, i) + ")"
  {
    var parts := DisplayAll(es, fl);
    JoinSpacesAround(parts, i);
    assert Display(Combination(es), fl) == "(" + JoinSpaces(parts) + ")";
    AppendAssoc("(", Before(parts, i) + Display(es[i], fl), After(parts, i));
    AppendAssoc("(", Before(parts, i), Display(es[i], fl));
  }

  /** The stub evaluator's errors; each comment gives the message text. */
  datatype StubError =
    | NotImplemented                   // "Not implemented"
    | EmptyCombination                 // "Invalid syntax ()"
    | ExpectingInteger                 // "Expecting integer"
    | UndefinedOperand(id: string)     // "Undefined operand '<id>'"
    | NonIdentifierOperand             // "Not implemented: Empty combination"

  /** The `try_fold` over the arguments of `+`, from the running sum `acc`. */
  function SumArgs(acc: int, args: seq<Expression>): (r: Result<int, StubError>)
    ensures r.Success? <==> AllInts(args)
    ensures r.Failure? ==> r.error == ExpectingInteger
    decreases |args|
  {
    if args == [] then Success(acc)
    else
      match args[0]
      case IntLiteral(i) =>
        assert AllInts(args) <==> AllInts(args[1..]);
        SumArgs(acc + i, args[1..])
      case _ => Failure(ExpectingInteger)
  }

  /** The stub `eval` of the binary: `(+ ...)` over integer literals, and errors elsewhere. */
  function StubEval(e: Expression): (r: Result<Expression, StubError>)
    ensures r.Success? <==>
              !e.Identifier? &&
              (e.Combination? ==> |e.elements| > 0 && e.elements[0] == Identifier("+") && AllInts(e.elements[1..]))
    ensures r.Success? && e.Combination? ==> r.value.IntLiteral?
    ensures r.Success? && !e.Combination? ==> r.value == e
  {
    match e
    case Identifier(_) => Failure(NotImplemented)
    case Combination(elements) =>
      if |elements| == 0 then Failure(EmptyCombination)
      else
        (match elements[0]
         case Identifier(id) =>
           if id == "+" then
             (match SumArgs(0, elements[1..])
              case Success(v) => Success(IntLiteral(v))
              case Failure(err) => Failure(err))
           else Failure(UndefinedOperand(id))
         case _ => Failure(NonIdentifierOperand))
    case _ => Success(e)
  }

  predicate AllInts(args: seq<Expression>) {
    forall k :: 0 <= k < |args| ==> args[k].IntLiteral?
  }

  /** The sum of integer literals, added from the last one back. */
  function Sum(args: seq<Expression>): int
    requires AllInts(args)
  {
    if args == [] then 0 else Sum(args[..|args| - 1]) + args[|args| - 1].i
  }

  /** The left fold adds the literals when all arguments are integer literals, and fails otherwise. */
  lemma {:induction false} SumArgsSum(acc: int, args: seq<Expression>)
    ensures SumArgs(acc, args) == if AllInts(args) then Success(acc + Sum(args)) else Failure(ExpectingInteger)
    decreases |args|
  {
    if args != [] && args[0].IntLiteral? {
      var tail := args[1..];
      SumArgsSum(acc + args[0].i, tail);
      assert AllInts(args) <==> AllInts(tail);
      if AllInts(args) {
        SumFront(args);
      }
    }
  }

  /** The sum taken from the front: the first literal plus the sum of the rest. */
  lemma {:induction false} SumFront(args: seq<Expression>)
    requires args != [] && AllInts(args)
    ensures Sum(args) == args[0].i + Sum(args[1..])
    decreases |args|
  {
    if |args| > 1 {
      var init := args[..|args| - 1];
      SumFront(init);
      assert init[1..] == args[1..][..|args| - 2];
    }
  }

  /** `(+ a1 ... an)`: the sum of the literals, 0 for none, or "Expecting integer". */
  lemma PlusCombination(args: seq<Expression>)
    ensures StubEval(Combination([Identifier("+")] + args))
         == if AllInts(args) then Success(IntLiteral(Sum(args))) else Failure(ExpectingInteger)
  {
    SumArgsSum(0, args);
    assert ([Identifier("+")] + args)[1..] == args;
  }

  /** The other shapes: errors for identifiers and most combinations, and self-evaluation. */
  lemma StubErrors(e: Expression)
    ensures e.Identifier? ==> StubEval(e) == Failure(NotImplemented)
    ensures e == Combination([]) ==> StubEval(e) == Failure(EmptyCombination)
    ensures e.Combination? && |e.elements| > 0 && e.elements[0].Identifier? && e.elements[0].id != "+"
            ==> StubEval(e) == Failure(UndefinedOperand(e.elements[0].id))
    ensures e.Combination? && |e.elements| > 0 && !e.elements[0].Identifier?
            ==> StubEval(e) == Failure(NonIdentifierOperand)
    ensures !e.Identifier? && !e.Combination? ==> StubEval(e) == Success(e)
  {
  }

  /** The input of the binary, `(+ 1 2 3 4 5)`, evaluates to 15. */
  lemma MainInput()
    ensures StubEval(Combination([Identifier("+"), IntLiteral(1), IntLiteral(2), IntLiteral(3), IntLiteral(4), IntLiteral(5)]))
         == Success(IntLiteral(15))
  {
  }
}
