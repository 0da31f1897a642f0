/**
 * The standalone tokenizer of the older snapshot. It scans exactly like the library's tokenizer
 * (both use the `Scanner` of module Lexer) but keeps integers and floats apart: a bare run is an
 * `IntLiteral` when it reads as `i64`, otherwise a `FloatLiteral` when it reads as `f64`,
 * otherwise an `Identifier`.
 */
module EarlyTokens {
  import opened Wrappers
  import opened Numbers
  import opened Lexer
  import Tokens

  datatype Token = LParen | RParen | Identifier(id: string) | StringLiteral(text: string) | FloatLiteral(f: F64) | IntLiteral(i: int)

  /** How a lexeme becomes a token: `i64` first, then `f64`, then an identifier. */
  function Classify(l: Lexeme, fl: FloatLib): (t: Token)
    ensures l == Open <==> t == LParen
    ensures l == Close <==> t == RParen
    ensures l.Quoted? <==> t.StringLiteral?
    ensures l.Quoted? ==> t.text == l.text
    ensures l.Bare? ==> (t.IntLiteral? <==> ParseI64(l.text).Some?)
    ensures l.Bare? && t.IntLiteral? ==> t.i == ParseI64(l.text).value && InI64(t.i)
    ensures l.Bare? ==> (t.FloatLiteral? <==> ParseI64(l.text).None? && fl.parse(l.text).Some?)
    ensures l.Bare? && t.FloatLiteral? ==> t.f == fl.parse(l.text).value
    ensures l.Bare? && t.Identifier? ==> t.id == l.text
  {
    match l
    case Open => LParen
    case Close => RParen
    case Quoted(text) => StringLiteral(text)
    case Bare(text) =>
      match ParseI64(text)
      case Some(v) => IntLiteral(v)
      case None =>
        match fl.parse(text)
        case Some(v) => FloatLiteral(v)
        case None => Identifier(text)
  }

  /** `Tokenizer::next` on the remaining input `s`: the token and what is left. */
  function NextToken(s: string, fl: FloatLib): (out: (Option<Token>, string))
    ensures out.0.None? <==> AllWhitespace(s)
    ensures out.0.Some? ==> |out.1| < |s|
  {
    match Scan(s)
    case (Some(l), rest) => (Some(Classify(l, fl)), rest)
    case (None, rest) => (None, rest)
  }

  /** Every token of `s`, in order. */
  function Tokenize(s: string, fl: FloatLib): (ts: seq<Token>)
    ensures ts == [] <==> AllWhitespace(s)
    ensures |ts| <= |s|
    decreases |s|
  {
    match NextToken(s, fl)
    case (Some(t), rest) => [t] + Tokenize(rest, fl)
    case (None, _) => []
  }

  /** One step of `Tokenize`: the next token, then the tokens of what is left. */
  lemma TokenizeStep(s: string, fl: FloatLib)
    ensures NextToken(s, fl).0.Some? ==> Tokenize(s, fl) == [NextToken(s, fl).0.value] + Tokenize(NextToken(s, fl).1, fl)
    ensures NextToken(s, fl).0.None? ==> Tokenize(s, fl) == []
  {
  }

  /** `tokenize`: a tokenizer over the characters of `input`. */
  class Tokenizer {
    const scanner: Scanner
    const fl: FloatLib

    constructor(input: string, fl: FloatLib)
      ensures fresh(scanner) && scanner.rest == input && this.fl == fl
    {
      scanner := new Scanner(input);
      this.fl := fl;
    }

    method Next() returns (t: Option<Token>)
      modifies scanner
      ensures (t, scanner.rest) == NextToken(old(scanner.rest), fl)
    {
      var l := scanner.Next();
      match l
      case Some(lexeme) =>
        t := Some(Classify(lexeme, fl));
      case None =>
        t := None;
    }

    /** Drains the tokenizer, as `collect::<Vec<Token>>()` does. */
    method Collect() returns (ts: seq<Token>)
      modifies scanner
      ensures ts == Tokenize(old(scanner.rest), fl)
    {
      ts := [];
      var done := false;
      while !done
        invariant ts + (if done then [] else Tokenize(scanner.rest, fl)) == Tokenize(old(scanner.rest), fl)
        decreases |scanner.rest|, !done
      {
        TokenizeStep(scanner.rest, fl);
        var t := Next();
        match t
        case Some(token) =>
          assert (ts + [token]) + Tokenize(scanner.rest, fl) == ts + ([token] + Tokenize(scanner.rest, fl));
          ts := ts + [token];
        case None =>
          done := true;
      }
    }
  }

  /** The token of the library's tokenizer that an older token becomes. */
  function Lift(t: Token): Tokens.Token {
    match t
    case LParen => Tokens.LParen
    case RParen => Tokens.RParen
    case Identifier(id) => Tokens.Identifier(id)
    case StringLiteral(text) => Tokens.StringLiteral(text)
    case FloatLiteral(f) => Tokens.NumberLiteral(Float(f))
    case IntLiteral(i) => Tokens.NumberLiteral(Int(i))
  }

  function LiftAll(ts: seq<Token>): (us: seq<Tokens.Token>)
    ensures |us| == |ts| && forall i :: 0 <= i < |ts| ==> us[i] == Lift(ts[i])
  {
    if ts == [] then [] else [Lift(ts[0])] + LiftAll(ts[1..])
  }

  /** Both snapshots classify a lexeme alike, up to the split of numbers into two kinds. */
  lemma ClassifyAgrees(l: Lexeme, fl: FloatLib)
    ensures Tokens.Classify(l, fl) == Lift(Classify(l, fl))
  {
  }

  /** The older tokenizer reads every input as the library's tokenizer does, token by token. */
  lemma {:induction false} TokenizeAgrees(s: string, fl: FloatLib)
    ensures Tokens.Tokenize(s, fl) == LiftAll(Tokenize(s, fl))
    decreases |s|
  {
    match Scan(s)
    case (Some(l), rest) =>
      TokenizeAgrees(rest, fl);
      ClassifyAgrees(l, fl);
      assert Tokenize(s, fl) == [Classify(l, fl)] + Tokenize(rest, fl);
      assert Tokens.Tokenize(s, fl) == [Tokens.Classify(l, fl)] + Tokens.Tokenize(rest, fl);
    case (None, _) =>
  }

  /** Lifting is one to one, so the older tokens are determined by the library's. */
  lemma LiftAllInjective(a: seq<Token>, b: seq<Token>)
    requires LiftAll(a) == LiftAll(b)
    ensures a == b
  {
    assert |a| == |b|;
    forall i | 0 <= i < |a| ensures a[i] == b[i] {
      assert Lift(a[i]) == LiftAll(a)[i] == LiftAll(b)[i] == Lift(b[i]);
    }
  }

  /** The older tokens of the `basics` test. */
  function BasicsExpected(fl: FloatLib): seq<Token>
    requires fl.parse("2.0").Some? && fl.parse("-3.14e159").Some?
  {
    [LParen, Identifier("quote"), LParen, Identifier("testing"), IntLiteral(1),
     LParen, FloatLiteral(fl.parse("2.0").value), RParen,
     FloatLiteral(fl.parse("-3.14e159").value), RParen, RParen]
  }

  lemma LiftBasics(fl: FloatLib)
    requires fl.parse("2.0").Some? && fl.parse("-3.14e159").Some?
    ensures LiftAll(BasicsExpected(fl)) ==
      [Tokens.LParen, Tokens.Identifier("quote"), Tokens.LParen, Tokens.Identifier("testing"),
       Tokens.NumberLiteral(Int(1)), Tokens.LParen, Tokens.NumberLiteral(Float(fl.parse("2.0").value)), Tokens.RParen,
       Tokens.NumberLiteral(Float(fl.parse("-3.14e159").value)), Tokens.RParen, Tokens.RParen]
  {
  }

  /**
   * This tokenizer's `basics` test: the whole input tokenizes to its eleven tokens, with `1`
   * an `IntLiteral` and the two float words `FloatLiteral`s.
   */
  lemma BasicsTokens(fl: FloatLib)
    requires fl.parse("quote").None? && fl.parse("testing").None?
    requires fl.parse("2.0").Some? && fl.parse("-3.14e159").Some?
    ensures Tokenize("(quote (testing 1 (2.0) -3.14e159))", fl) == BasicsExpected(fl)
  {
    TokenizeAgrees("(quote (testing 1 (2.0) -3.14e159))", fl);
    Tokens.BasicsTokens(fl);
    LiftBasics(fl);
    LiftAllInjective(Tokenize("(quote (testing 1 (2.0) -3.14e159))", fl), BasicsExpected(fl));
  }
}
