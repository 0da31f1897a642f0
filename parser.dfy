/**
 * The library's recursive-descent parser: tokens in, expression trees out. A `(` collects
 * expressions up to its matching `)`; a stray `)` and a `(` left open are the two errors.
 */
module Parsing {
  import opened Wrappers
  import opened Numbers
  import Tokens
  import opened Syntax

  /** The parser's error messages. */
  datatype ParseError =
    | UnexpectedClose   // "Unexpected ')'"
    | UnexpectedEof     // "Unexpected EOF"

  type Parsed = Result<Option<Expr>, ParseError>

  /** `t` is a suffix of `ts`. */
  predicate SuffixOf(t: seq<Tokens.Token>, ts: seq<Tokens.Token>) {
    |t| <= |ts| && t == ts[|ts| - |t|..]
  }

  /**
   * `single` on the remaining tokens `ts`: no expression when there is no token, otherwise
   * the expression or error the first tokens make, and the tokens left after them.
   */
  function ParseOne(ts: seq<Tokens.Token>): (out: (Parsed, seq<Tokens.Token>))
    ensures SuffixOf(out.1, ts)
    ensures out.0 == Success(None) <==> ts == []
    ensures ts != [] ==> |out.1| < |ts|
    decreases |ts|, 0
  {
    if ts == [] then (Success(None), [])
    else
      match ts[0]
      case LParen => ParseItems(ts[1..], [])
      case RParen => (Failure(UnexpectedClose), ts[1..])
      case Identifier(id) => (Success(Some(Identifier(id))), ts[1..])
      case StringLiteral(s) => (Success(Some(StringLiteral(s))), ts[1..])
      case NumberLiteral(v) => (Success(Some(NumberLiteral(v))), ts[1..])
  }

  /**
   * The loop of `single` inside a combination, with `items` parsed so far: up to the matching
   * `)`, or to the first error.
   */
  function ParseItems(ts: seq<Tokens.Token>, items: seq<Expr>): (out: (Parsed, seq<Tokens.Token>))
    ensures SuffixOf(out.1, ts)
    ensures out.0.Success? ==> out.0.value.Some? && out.0.value.value.Combination? && |out.1| < |ts|
    decreases |ts|, 1
  {
    if ts == [] then (Failure(UnexpectedEof), ts)
    else if ts[0] == Tokens.RParen then (Success(Some(Combination(items))), ts[1..])
    else
      var (r, rest) := ParseOne(ts);
      match r
      case Failure(e) => (Failure(e), rest)
      case Success(None) => assert false; (Failure(UnexpectedEof), rest)
      case Success(Some(e)) => ParseItems(rest, items + [e])
  }

  /** `Iterator::next`: `single` with its `Result` and `Option` swapped. */
  function Transpose(r: Parsed): (o: Option<Result<Expr, ParseError>>)
    ensures o.None? <==> r == Success(None)
    ensures o.Some? && o.value.Success? ==> r == Success(Some(o.value.value))
    ensures o.Some? && o.value.Failure? ==> r == Failure(o.value.error)
  {
    match r
    case Success(None) => None
    case Success(Some(e)) => Some(Success(e))
    case Failure(e) => Some(Failure(e))
  }

  /** A parser over a token stream; `rest` holds the tokens not yet consumed. */
  class Parser {
    var rest: seq<Tokens.Token>

    constructor(ts: seq<Tokens.Token>)
      ensures rest == ts
    {
      rest := ts;
    }

    /** `single`: consumes the tokens of one expression. */
    method Single() returns (r: Parsed)
      modifies this
      ensures (r, rest) == ParseOne(old(rest))
      decreases |rest|
    {
      if rest == [] {
        return Success(None);
      }
      var t := rest[0];
      rest := rest[1..];
      match t
      case LParen =>
        var items: seq<Expr> := [];
        while true
          invariant |rest| < |old(rest)|
          invariant ParseItems(rest, items) == ParseOne(old(rest))
          decreases |rest|
        {
          if rest == [] {
            return Failure(UnexpectedEof);
          }
          if rest[0] == Tokens.RParen {
            rest := rest[1..];
            break;
          }
          ghost var before := rest;
          var e := Single();
          match e
          case Failure(err) =>
            return Failure(err);
          case Success(None) =>
            assert false;
          case Success(Some(x)) =>
            assert ParseItems(before, items) == ParseItems(rest, items + [x]);
            items := items + [x];
        }
        r := Success(Some(Combination(items)));
      case RParen =>
        r := Failure(UnexpectedClose);
      case Identifier(id) =>
        r := Success(Some(Identifier(id)));
      case StringLiteral(s) =>
        r := Success(Some(StringLiteral(s)));
      case NumberLiteral(v) =>
        r := Success(Some(NumberLiteral(v)));
    }

    /** `next`: the next parsed expression or error, or `None` at the end of the tokens. */
    method Next() returns (o: Option<Result<Expr, ParseError>>)
      modifies this
      ensures o == Transpose(ParseOne(old(rest)).0) && rest == ParseOne(old(rest)).1
    {
      var r := Single();
      o := Transpose(r);
    }
  }

  /** An expression the parser can produce: combinations of identifiers, strings and numbers. */
  predicate Parseable(e: Expr) {
    match e
    case Combination(es) => forall i :: 0 <= i < |es| ==> Parseable(es[i])
    case Identifier(_) => true
    case StringLiteral(_) => true
    case NumberLiteral(_) => true
    case _ => false
  }

  /** The tokens of an expression: what the parser reads back as that expression. */
  function Spelling(e: Expr): seq<Tokens.Token>
    requires Parseable(e)
    decreases e, 1
  {
    match e
    case Combination(es) => [Tokens.LParen] + SpellingAll(es) + [Tokens.RParen]
    case Identifier(id) => [Tokens.Identifier(id)]
    case StringLiteral(s) => [Tokens.StringLiteral(s)]
    case NumberLiteral(v) => [Tokens.NumberLiteral(v)]
  }

  function SpellingAll(es: seq<Expr>): seq<Tokens.Token>
    requires forall i :: 0 <= i < |es| ==> Parseable(es[i])
    decreases es, 0
  {
    if es == [] then [] else Spelling(es[0]) + SpellingAll(es[1..])
  }

  /** Parsing the tokens of `e` yields `e` and leaves what followed. */
  lemma {:induction false} ParseSpelling(e: Expr, rest: seq<Tokens.Token>)
    requires Parseable(e)
    ensures ParseOne(Spelling(e) + rest) == (Success(Some(e)), rest)
    decreases e, 1
  {
    var ts := Spelling(e) + rest;
    match e
    case Combination(es) =>
      assert ts[1..] == SpellingAll(es) + ([Tokens.RParen] + rest);
      ParseSpellingAll(es, [], [Tokens.RParen] + rest);
      assert ([Tokens.RParen] + rest)[1..] == rest && [] + es == es;
    case _ =>
      assert ts[1..] == rest;
  }

  /** Inside a combination, the tokens of `es` add `es` to the items parsed so far. */
  lemma {:induction false} ParseSpellingAll(es: seq<Expr>, items: seq<Expr>, rest: seq<Tokens.Token>)
    requires forall i :: 0 <= i < |es| ==> Parseable(es[i])
    ensures ParseItems(SpellingAll(es) + rest, items) == ParseItems(rest, items + es)
    decreases es, 0
  {
    if es == [] {
      assert SpellingAll(es) + rest == rest && items + es == items;
    } else {
      var tail := SpellingAll(es[1..]) + rest;
      SpellingAllFirst(es, rest);
      ParseSpelling(es[0], tail);
      SpellingNotClose(es[0], tail);
      ItemsAfterOne(Spelling(es[0]) + tail, items);
      ParseSpellingAll(es[1..], items + [es[0]], rest);
      assert items + [es[0]] + es[1..] == items + es;
    }
  }

  /** Conversely, whatever the parser yields is spelled by the tokens it consumed. */
  lemma {:induction false} ParsedFromTokens(ts: seq<Tokens.Token>)
    requires ParseOne(ts).0.Success? && ParseOne(ts).0.value.Some?
    ensures Parseable(ParseOne(ts).0.value.value)
    ensures ts == Spelling(ParseOne(ts).0.value.value) + ParseOne(ts).1
    decreases |ts|, 0
  {
    if ts[0] == Tokens.LParen {
      ItemsFromTokens(ts[1..], []);
      CombinationFromTokens(ts);
    } else {
      assert ts == [ts[0]] + ts[1..];
    }
  }

  /** The `(` case of `ParsedFromTokens`, once the items are known to be spelled by their tokens. */
  lemma CombinationFromTokens(ts: seq<Tokens.Token>)
    requires ts != [] && ts[0] == Tokens.LParen && ParseItems(ts[1..], []).0.Success?
    requires var es := ParseItems(ts[1..], []).0.value.value.elems;
      && (forall i :: 0 <= i < |es| ==> Parseable(es[i]))
      && ts[1..] == SpellingAll(es[0..]) + [Tokens.RParen] + ParseItems(ts[1..], []).1
    ensures ParseOne(ts) == ParseItems(ts[1..], [])
    ensures Parseable(ParseOne(ts).0.value.value)
    ensures ts == Spelling(ParseOne(ts).0.value.value) + ParseOne(ts).1
  {
    var es := ParseItems(ts[1..], []).0.value.value.elems;
    assert es[0..] == es;
    assert ts == [Tokens.LParen] + ts[1..];
  }

  lemma SpellingAllFirst(es: seq<Expr>, rest: seq<Tokens.Token>)
    requires es != [] && forall i :: 0 <= i < |es| ==> Parseable(es[i])
    ensures SpellingAll(es) + rest == Spelling(es[0]) + (SpellingAll(es[1..]) + rest)
  {
  }

  /** The tokens of an expression never start with `)`. */
  lemma SpellingNotClose(e: Expr, tail: seq<Tokens.Token>)
    requires Parseable(e)
    ensures Spelling(e) + tail != [] && (Spelling(e) + tail)[0] != Tokens.RParen
  {
  }

  /** Inside a combination, an expression parsed at the front joins the items. */
  lemma ItemsAfterOne(ts: seq<Tokens.Token>, items: seq<Expr>)
    requires ts != [] && ts[0] != Tokens.RParen && ParseOne(ts).0.Success? && ParseOne(ts).0.value.Some?
    ensures ParseItems(ts, items) == ParseItems(ParseOne(ts).1, items + [ParseOne(ts).0.value.value])
  {
  }

  /** Conversely for the items of a combination: they are spelled by the tokens consumed. */
  lemma {:induction false} ItemsFromTokens(ts: seq<Tokens.Token>, items: seq<Expr>)
    requires ParseItems(ts, items).0.Success?
    ensures var es := ParseItems(ts, items).0.value.value.elems;
      && |items| <= |es| && es[..|items|] == items
      && (forall i :: |items| <= i < |es| ==> Parseable(es[i]))
      && ts == SpellingAll(es[|items|..]) + [Tokens.RParen] + ParseItems(ts, items).1
    decreases |ts|, 1
  {
    var out := ParseItems(ts, items);
    var es := out.0.value.value.elems;
    if ts[0] == Tokens.RParen {
      assert es == items;
      assert es[|items|..] == [];
      assert ts == [Tokens.RParen] + ts[1..];
    } else {
      var (r, rest) := ParseOne(ts);
      assert r.Success? && r.value.Some?;
      var e := r.value.value;
      assert out == ParseItems(rest, items + [e]);
      ParsedFromTokens(ts);
      ItemsFromTokens(rest, items + [e]);
      ItemsStep(es, items, e, rest, out.1);
    }
  }

  /** One step of `ItemsFromTokens`: the item just parsed joins the front of the spelling. */
  lemma ItemsStep(es: seq<Expr>, items: seq<Expr>, e: Expr, rest: seq<Tokens.Token>, after: seq<Tokens.Token>)
    requires Parseable(e)
    requires |items| + 1 <= |es| && es[..|items| + 1] == items + [e]
    requires forall i :: |items| + 1 <= i < |es| ==> Parseable(es[i])
    requires rest == SpellingAll(es[|items| + 1..]) + [Tokens.RParen] + after
    ensures |items| <= |es| && es[..|items|] == items
    ensures forall i :: |items| <= i < |es| ==> Parseable(es[i])
    ensures Spelling(e) + rest == SpellingAll(es[|items|..]) + [Tokens.RParen] + after
  {
    assert es[|items|] == (items + [e])[|items|] == e;
    assert es[..|items|] == (items + [e])[..|items|] == items;
    var tail := es[|items|..];
    assert tail[0] == e && tail[1..] == es[|items| + 1..];
  }

  /** A `)` where an expression should start is an error, and only that token is consumed. */
  lemma StrayClose(rest: seq<Tokens.Token>)
    ensures ParseOne([Tokens.RParen] + rest) == (Failure(UnexpectedClose), rest)
  {
    assert ([Tokens.RParen] + rest)[1..] == rest;
  }

  /** A `(` whose expressions run to the end of the tokens without a `)` is an error. */
  lemma UnclosedCombination(es: seq<Expr>)
    requires forall i :: 0 <= i < |es| ==> Parseable(es[i])
    ensures ParseOne([Tokens.LParen] + SpellingAll(es)).0 == Failure(UnexpectedEof)
  {
    ParseSpellingAll(es, [], []);
    assert SpellingAll(es) + [] == SpellingAll(es);
    assert ([Tokens.LParen] + SpellingAll(es))[1..] == SpellingAll(es);
  }

  /** An error inside a combination ends the combination with that error. */
  lemma NestedError(ts: seq<Tokens.Token>, items: seq<Expr>)
    requires ts != [] && ts[0] != Tokens.RParen && ParseOne(ts).0.Failure?
    ensures ParseItems(ts, items) == ParseOne(ts)
  {
  }
}
