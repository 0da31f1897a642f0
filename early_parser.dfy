/**
 * The standalone parser of the older snapshot, over the tokens of module EarlyTokens. It
 * returns `Option<Result<..>>` directly, and where the library's parser panics it returns the
 * error "w00t"; that branch is proved unreachable.
 */
module EarlyParsing {
  import opened Wrappers
  import opened Numbers
  import opened Text
  import EarlyTokens
  import Tokens
  import Syntax
  import Parsing

  /** The expression type of the older parser. */
  datatype Expression =
    | Expr(items: seq<Expression>)
    | Identifier(id: string)
    | StringLiteral(text: string)
    | FloatLiteral(f: F64)
    | IntLiteral(i: int)

  datatype ParseError =
    | UnexpectedEof     // "Unexpected EOF"
    | UnexpectedClose   // "Unexpected ')'"
    | W00t              // "w00t": a nested `single` that found no token

  type Parsed = Option<Result<Expression, ParseError>>

  /** `single` on the remaining tokens `ts`: the parsed expression or error, and what is left. */
  function ParseOne(ts: seq<EarlyTokens.Token>): (out: (Parsed, seq<EarlyTokens.Token>))
    ensures |out.1| <= |ts| && out.1 == ts[|ts| - |out.1|..]
    ensures out.0.None? <==> ts == []
    ensures ts != [] ==> |out.1| < |ts|
    decreases |ts|, 0
  {
    if ts == [] then (None, [])
    else
      match ts[0]
      case LParen => ParseItems(ts[1..], [])
      case RParen => (Some(Failure(UnexpectedClose)), ts[1..])
      case Identifier(id) => (Some(Success(Identifier(id))), ts[1..])
      case StringLiteral(s) => (Some(Success(StringLiteral(s))), ts[1..])
      case FloatLiteral(v) => (Some(Success(FloatLiteral(v))), ts[1..])
      case IntLiteral(v) => (Some(Success(IntLiteral(v))), ts[1..])
  }

  /** The loop of `single` inside an `Expr`, with `items` parsed so far. */
  function ParseItems(ts: seq<EarlyTokens.Token>, items: seq<Expression>): (out: (Parsed, seq<EarlyTokens.Token>))
    ensures |out.1| <= |ts| && out.1 == ts[|ts| - |out.1|..]
    ensures out.0.Some?
    ensures out.0.value.Success? ==> out.0.value.value.Expr? && |out.1| < |ts|
    decreases |ts|, 1
  {
    if ts == [] then (Some(Failure(UnexpectedEof)), ts)
    else if ts[0] == EarlyTokens.RParen then (Some(Success(Expr(items))), ts[1..])
    else
      var (r, rest) := ParseOne(ts);
      match r
      case Some(Success(e)) => ParseItems(rest, items + [e])
      case Some(Failure(e)) => (Some(Failure(e)), rest)
      case None => (Some(Failure(W00t)), rest)
  }

  /** The parser's "w00t" error never comes out: a nested `single` always has a token. */
  lemma {:induction false} NoW00t(ts: seq<EarlyTokens.Token>)
    ensures ParseOne(ts).0 != Some(Failure(W00t))
    decreases |ts|, 0
  {
    if ts != [] && ts[0] == EarlyTokens.LParen {
      NoW00tItems(ts[1..], []);
    }
  }

  lemma {:induction false} NoW00tItems(ts: seq<EarlyTokens.Token>, items: seq<Expression>)
    ensures ParseItems(ts, items).0 != Some(Failure(W00t))
    decreases |ts|, 1
  {
    if ts != [] && ts[0] != EarlyTokens.RParen {
      var (r, rest) := ParseOne(ts);
      NoW00t(ts);
      if r.Some? && r.value.Success? {
        NoW00tItems(rest, items + [r.value.value]);
      }
    }
  }

  /** A parser over a token stream; `rest` holds the tokens not yet consumed. */
  class Parser {
    var rest: seq<EarlyTokens.Token>

    constructor(ts: seq<EarlyTokens.Token>)
      ensures rest == ts
    {
      rest := ts;
    }

    /** `single`, which `next` returns as it is. */
    method Single() returns (r: Parsed)
      modifies this
      ensures (r, rest) == ParseOne(old(rest))
      decreases |rest|
    {
      if rest == [] {
        return None;
      }
      var t := rest[0];
      rest := rest[1..];
      match t
      case LParen =>
        var items: seq<Expression> := [];
        while true
          invariant |rest| < |old(rest)|
          invariant ParseItems(rest, items) == ParseOne(old(rest))
          decreases |rest|
        {
          if rest == [] {
            return Some(Failure(UnexpectedEof));
          }
          if rest[0] == EarlyTokens.RParen {
            rest := rest[1..];
            break;
          }
          ghost var before := rest;
          var e := Single();
          match e
          case Some(Success(x)) =>
            assert ParseItems(before, items) == ParseItems(rest, items + [x]);
            items := items + [x];
          case Some(Failure(_)) =>
            return e;
          case None =>
            return Some(Failure(W00t));
        }
        r := Some(Success(Expr(items)));
      case RParen =>
        r := Some(Failure(UnexpectedClose));
      case Identifier(id) =>
        r := Some(Success(Identifier(id)));
      case StringLiteral(s) =>
        r := Some(Success(StringLiteral(s)));
      case FloatLiteral(v) =>
        r := Some(Success(FloatLiteral(v)));
      case IntLiteral(v) =>
        r := Some(Success(IntLiteral(v)));
    }

    /** `Iterator::next`: the next expression or error, `None` once the tokens are used up. */
    method Next() returns (o: Parsed)
      modifies this
      ensures o.None? <==> old(rest) == []
      ensures (o, rest) == ParseOne(old(rest))
    {
      o := Single();
    }
  }

  /** `Display`: an `Expr` as its items joined by spaces inside parentheses. */
  function Display(e: Expression, fl: FloatLib): string
    decreases e, 1
  {
    match e
    case Expr(items) => "(" + JoinSpaces(DisplayAll(items, fl)) + ")"
    case Identifier(id) => id
    case StringLiteral(s) => "\"" + s + "\""
    case FloatLiteral(v) => fl.format(v)
    case IntLiteral(v) => IntDecimal(v)
  }

  function DisplayAll(es: seq<Expression>, fl: FloatLib): (r: seq<string>)
    ensures |r| == |es|
    ensures forall i :: 0 <= i < |es| ==> r[i] == Display(es[i], fl)
    decreases es, 0
  {
    if es == [] then [] else [Display(es[0], fl)] + DisplayAll(es[1..], fl)
  }

  /**
   * Each element of an `Expr` appears verbatim in its display, after the opening parenthesis or a
   * space and before a space or the closing parenthesis; no elements display as `()`.
   */
  lemma DisplayElement(es: seq<Expression>, i: nat, fl: FloatLib)
    requires i < |es|
    ensures Display(Expr([]), fl) == "()"
    ensures var parts := DisplayAll(es, fl);
      Display(Expr(es), fl) == "(" + Before(parts, i) + Display(es[i], fl) + After(parts, i) + ")"
  {
    var parts := DisplayAll(es, fl);
    JoinSpacesAround(parts, i);
    assert Display(Expr(es), fl) == "(" + JoinSpaces(parts) + ")";
    AppendAssoc("(", Before(parts, i) + Display(es[i], fl), After(parts, i));
    AppendAssoc("(", Before(parts, i), Display(es[i], fl));
  }

  /** The library's expression an older one becomes. */
  function Lift(e: Expression): (r: Syntax.Expr)
    ensures Parsing.Parseable(r)
    decreases e, 1
  {
    match e
    case Expr(items) => Syntax.Combination(LiftItems(items))
    case Identifier(id) => Syntax.Identifier(id)
    case StringLiteral(s) => Syntax.StringLiteral(s)
    case FloatLiteral(v) => Syntax.NumberLiteral(Float(v))
    case IntLiteral(v) => Syntax.NumberLiteral(Int(v))
  }

  function LiftItems(es: seq<Expression>): (r: seq<Syntax.Expr>)
    ensures |r| == |es| && forall i :: 0 <= i < |es| ==> r[i] == Lift(es[i])
    decreases es, 0
  {
    if es == [] then [] else [Lift(es[0])] + LiftItems(es[1..])
  }

  /** What the library's parser returns in place of an older result. */
  function LiftParsed(r: Parsed): Parsing.Parsed {
    match r
    case None => Success(None)
    case Some(Success(e)) => Success(Some(Lift(e)))
    case Some(Failure(UnexpectedEof)) => Failure(Parsing.UnexpectedEof)
    case Some(Failure(UnexpectedClose)) => Failure(Parsing.UnexpectedClose)
    case Some(Failure(W00t)) => Failure(Parsing.UnexpectedEof)
  }

  /** On lifted tokens, the library's parser gives the lifted result and leaves the same tokens. */
  lemma {:induction false} ParseAgrees(ts: seq<EarlyTokens.Token>)
    ensures Parsing.ParseOne(EarlyTokens.LiftAll(ts)) == (LiftParsed(ParseOne(ts).0), EarlyTokens.LiftAll(ParseOne(ts).1))
    decreases |ts|, 0
  {
    if ts != [] {
      var us := EarlyTokens.LiftAll(ts);
      assert us[1..] == EarlyTokens.LiftAll(ts[1..]);
      if ts[0] == EarlyTokens.LParen {
        ItemsAgree(ts[1..], []);
      }
    }
  }

  lemma {:induction false} ItemsAgree(ts: seq<EarlyTokens.Token>, items: seq<Expression>)
    ensures Parsing.ParseItems(EarlyTokens.LiftAll(ts), LiftItems(items))
         == (LiftParsed(ParseItems(ts, items).0), EarlyTokens.LiftAll(ParseItems(ts, items).1))
    decreases |ts|, 1
  {
    var us := EarlyTokens.LiftAll(ts);
    if ts == [] {
      assert us == [];
    } else if ts[0] == EarlyTokens.RParen {
      LiftAllFront(ts);
      assert ParseItems(ts, items) == (Some(Success(Expr(items))), ts[1..]);
    } else {
      LiftAllFront(ts);
      var (r, rest) := ParseOne(ts);
      ParseAgrees(ts);
      if r.Some? && r.value.Success? {
        ItemsAgree(rest, items + [r.value.value]);
        ItemsAgreeStep(ts, items, r.value.value, rest);
      } else {
        ItemsAgreeStop(ts, items);
      }
    }
  }

  /** An error from a nested element ends both parsers with the same error. */
  lemma ItemsAgreeStop(ts: seq<EarlyTokens.Token>, items: seq<Expression>)
    requires ts != [] && ts[0] != EarlyTokens.RParen
    requires ParseOne(ts).0 != None && ParseOne(ts).0.value.Failure?
    requires Parsing.ParseOne(EarlyTokens.LiftAll(ts)) == (LiftParsed(ParseOne(ts).0), EarlyTokens.LiftAll(ParseOne(ts).1))
    ensures Parsing.ParseItems(EarlyTokens.LiftAll(ts), LiftItems(items))
         == (LiftParsed(ParseItems(ts, items).0), EarlyTokens.LiftAll(ParseItems(ts, items).1))
  {
    LiftAllFront(ts);
  }

  /** The first lifted token is the lift of the first token. */
  lemma LiftAllFront(ts: seq<EarlyTokens.Token>)
    requires ts != []
    ensures EarlyTokens.LiftAll(ts)[0] == EarlyTokens.Lift(ts[0])
    ensures EarlyTokens.LiftAll(ts)[1..] == EarlyTokens.LiftAll(ts[1..])
  {
  }

  /** A parsed item moves from the tokens to the items, in both parsers alike. */
  lemma ItemsAgreeStep(ts: seq<EarlyTokens.Token>, items: seq<Expression>, e: Expression, rest: seq<EarlyTokens.Token>)
    requires ts != [] && ts[0] != EarlyTokens.RParen
    requires ParseOne(ts) == (Some(Success(e)), rest)
    requires Parsing.ParseOne(EarlyTokens.LiftAll(ts)) == (Success(Some(Lift(e))), EarlyTokens.LiftAll(rest))
    ensures ParseItems(ts, items) == ParseItems(rest, items + [e])
    ensures Parsing.ParseItems(EarlyTokens.LiftAll(ts), LiftItems(items))
         == Parsing.ParseItems(EarlyTokens.LiftAll(rest), LiftItems(items + [e]))
  {
    LiftAllFront(ts);
    assert LiftItems(items + [e]) == LiftItems(items) + [Lift(e)];
  }
}
