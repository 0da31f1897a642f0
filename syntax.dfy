/**
 * The expression type of the final evaluator: one tagged union for syntax trees and runtime
 * values. It is the `Expression` of the library's `expression` module plus the
 * `BooleanLiteral` variant that the evaluator and the builtin library use.
 */
module Syntax {
  import opened Numbers
  import opened Text

  /** The native procedures; each stands for one `Rc<dyn Fn>` value of the source. */
  datatype Builtin =
    | Plus        // `builtin_add`
    | Minus       // `builtin_sub`
    | Times       // `builtin_mul`
    | Over        // `builtin_div`
    | Greater     // `builtin_greater_than`
    | Less        // `builtin_less_than`
    | NumEqual    // `builtin_equal`
    | EarlyMinus  // the older `builtin_sub`, which has no one-argument case

  datatype Expr =
    | Combination(elems: seq<Expr>)
    | Identifier(name: string)
    | StringLiteral(text: string)
    | NumberLiteral(n: Number)
    | BooleanLiteral(b: bool)
    | Procedure(params: seq<string>, body: Expr)
    | BuiltinProcedure(op: Builtin)
    | Void

  /** The evaluator's errors; each comment gives the message text of the source. */
  datatype Error =
    | UndefinedSymbol(symbol: string)   // "Undefined symbol '<symbol>'"
    | InvalidSyntax                     // "Invalid syntax"
    | EmptyCombination                  // "Invalid syntax ()"
    | ExpectingPair                     // "Expecting pair as cond clause"
    | WrongNumberOfArguments            // "Wrong number of arguments"
    | NonProcedure(operand: Expr)       // "Attempt to apply non-procedure '<operand>'"
    | ExpectingNumber                   // "Expecting number"
    | IncorrectArgumentCount(op: string) // "Incorrect argument count in call (<op>)"

  /**
   * The result of an evaluation: a value, an error, or `OutOfFuel` when the evaluation needs
   * more nested calls than it was given (the source would exhaust the host stack instead).
   */
  datatype Outcome<+T> = Ok(value: T) | Err(error: Error) | OutOfFuel {
    function PropagateFailure<U>(): (r: Outcome<U>)
      requires !Ok?
      ensures r.Err? == Err? && (Err? ==> r.error == error)
    {
      if Err? then Err(error) else OutOfFuel
    }
  }

  /** An expression the library's own `Expression` type can hold: no `BooleanLiteral` in it. */
  predicate IsLibExpression(e: Expr)
    decreases e
  {
    match e
    case Combination(es) => forall i :: 0 <= i < |es| ==> IsLibExpression(es[i])
    case Procedure(_, body) => IsLibExpression(body)
    case BooleanLiteral(_) => false
    case _ => true
  }

  /** The library's `Display` for expressions. */
  function Display(e: Expr, fl: FloatLib): string
    requires IsLibExpression(e)
    decreases e, 1
  {
    match e
    case Combination(es) => "(" + JoinSpaces(DisplayAll(es, fl)) + ")"
    case Identifier(id) => id
    case StringLiteral(s) => "\"" + s + "\""
    case NumberLiteral(v) => NumberText(v, fl)
    case Procedure(_, _) => "#procedure"
    case BuiltinProcedure(_) => "#builtin"
    case Void => ""
  }

  function DisplayAll(es: seq<Expr>, fl: FloatLib): (r: seq<string>)
    requires forall i :: 0 <= i < |es| ==> IsLibExpression(es[i])
    ensures |r| == |es|
    ensures forall i :: 0 <= i < |es| ==> r[i] == Display(es[i], fl)
    decreases es, 0
  {
    if es == [] then [] else [Display(es[0], fl)] + DisplayAll(es[1..], fl)
  }

  /**
   * Each element of a combination appears verbatim in its display, after the opening parenthesis or a
   * space and before a space or the closing parenthesis; no elements display as `()`.
   */
  lemma DisplayElement(es: seq<Expr>, i: nat, fl: FloatLib)
    requires i < |es|
    requires forall k :: 0 <= k < |es| ==> IsLibExpression(es[k])
    ensures Display(Combination([]), fl) == "()"
    ensures var parts := DisplayAll(es, fl);
      Display(Combination(es), fl) == "(" + Before(parts, i) + Display(es[i], fl) + After(parts, i) + ")"
  {
    var parts := DisplayAll(es, fl);
    JoinSpacesAround(parts, i);
    assert Display(Combination(es), fl) == "(" + JoinSpaces(parts) + ")";
    AppendAssoc("(", Before(parts, i) + Display(es[i], fl), After(parts, i));
    AppendAssoc("(", Before(parts, i), Display(es[i], fl));
  }
}
