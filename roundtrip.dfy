/**
 * The library's front end reads back what its `Display` prints: for an expression made of
 * identifiers, integers and combinations, tokenizing and parsing the displayed text gives the
 * expression again.
 */
module ReadBack {
  import opened Wrappers
  import opened Text
  import opened Numbers
  import opened Lexer
  import opened Tokens
  import opened Syntax
  import Parsing

  /**
   * An expression whose display reads back: identifiers are bare words that `from_str` rejects,
   * numbers are `i64` integers, and combinations hold such expressions.
   */
  predicate Printable(e: Expr, fl: FloatLib) {
    match e
    case Combination(es) => forall k :: 0 <= k < |es| ==> Printable(es[k], fl)
    case Identifier(id) => IsWord(id) && FromStr(id, fl).None?
    case NumberLiteral(n) => n.Int? && InI64(n.i)
    case _ => false
  }

  /** A printable expression is one the library's `Display` accepts and its parser produces. */
  lemma {:induction false} PrintableIsParseable(e: Expr, fl: FloatLib)
    requires Printable(e, fl)
    ensures IsLibExpression(e) && Parsing.Parseable(e)
    decreases e
  {
    if e.Combination? {
      forall k | 0 <= k < |e.elems|
        ensures IsLibExpression(e.elems[k]) && Parsing.Parseable(e.elems[k])
      {
        PrintableIsParseable(e.elems[k], fl);
      }
    }
  }

  /** The pieces the display of `e` is made of. */
  function Pieces(e: Expr, fl: FloatLib): seq<Piece>
    requires Printable(e, fl)
    decreases e, 1
  {
    match e
    case Combination(es) => [OpenParen] + PiecesJoined(es, fl) + [CloseParen]
    case Identifier(id) => [Word(id)]
    case NumberLiteral(n) => [Word(IntDecimal(n.i))]
  }

  /** The pieces of `es`, with a space between neighbours. */
  function PiecesJoined(es: seq<Expr>, fl: FloatLib): seq<Piece>
    requires forall k :: 0 <= k < |es| ==> Printable(es[k], fl)
    decreases es, 0
  {
    if |es| == 0 then []
    else if |es| == 1 then Pieces(es[0], fl)
    else Pieces(es[0], fl) + [Space] + PiecesJoined(es[1..], fl)
  }

  /** The decimal text of an integer is a bare word. */
  lemma IntDecimalIsWord(v: int)
    ensures IsWord(IntDecimal(v))
  {
    var d := NatDigits(if v < 0 then -v else v);
    assert forall j :: 0 <= j < |d| ==> IsDigit(d[j]);
    if v < 0 {
      var s := "-" + d;
      assert forall j :: 1 <= j < |s| ==> s[j] == d[j - 1];
    }
  }

  /** The pieces of a printable expression are well formed and start and end with no space. */
  lemma {:induction false} PiecesWellFormed(e: Expr, fl: FloatLib)
    requires Printable(e, fl)
    ensures var ps := Pieces(e, fl); WellFormedPieces(ps) && ps != [] && !ps[0].Space? && !ps[|ps| - 1].Space?
    ensures e.Combination? ==> Pieces(e, fl)[0] == OpenParen && Pieces(e, fl)[|Pieces(e, fl)| - 1] == CloseParen
    decreases e, 1
  {
    match e
    case Combination(es) =>
      PiecesJoinedWellFormed(es, fl);
      var j := PiecesJoined(es, fl);
      WellFormedAppend([OpenParen], j);
      WellFormedAppend([OpenParen] + j, [CloseParen]);
    case Identifier(id) =>
    case NumberLiteral(n) =>
      IntDecimalIsWord(n.i);
  }

  lemma {:induction false} PiecesJoinedWellFormed(es: seq<Expr>, fl: FloatLib)
    requires forall k :: 0 <= k < |es| ==> Printable(es[k], fl)
    ensures WellFormedPieces(PiecesJoined(es, fl))
    decreases es, 0
  {
    if |es| == 1 {
      PiecesWellFormed(es[0], fl);
    } else if |es| > 1 {
      PiecesWellFormed(es[0], fl);
      PiecesJoinedWellFormed(es[1..], fl);
      var p := Pieces(es[0], fl);
      WellFormedAppend(p, [Space]);
      WellFormedAppend(p + [Space], PiecesJoined(es[1..], fl));
    }
  }

  /** The pieces render as the display. */
  lemma {:induction false} RenderPieces(e: Expr, fl: FloatLib)
    requires Printable(e, fl) && IsLibExpression(e)
    ensures Render(Pieces(e, fl)) == Display(e, fl)
    decreases e, 1
  {
    match e
    case Combination(es) =>
      PrintableIsParseable(e, fl);
      RenderJoined(es, fl);
      var j := PiecesJoined(es, fl);
      RenderAppend([OpenParen], j);
      RenderAppend([OpenParen] + j, [CloseParen]);
    case Identifier(id) =>
    case NumberLiteral(n) =>
  }

  lemma {:induction false} RenderJoined(es: seq<Expr>, fl: FloatLib)
    requires forall k :: 0 <= k < |es| ==> Printable(es[k], fl) && IsLibExpression(es[k])
    ensures Render(PiecesJoined(es, fl)) == JoinSpaces(DisplayAll(es, fl))
    decreases es, 0
  {
    if |es| == 1 {
      RenderPieces(es[0], fl);
    } else if |es| > 1 {
      RenderPieces(es[0], fl);
      RenderJoined(es[1..], fl);
      var p := Pieces(es[0], fl);
      RenderAppend(p, [Space]);
      RenderAppend(p + [Space], PiecesJoined(es[1..], fl));
      assert DisplayAll(es, fl)[1..] == DisplayAll(es[1..], fl);
    }
  }

  /** The pieces stand for the tokens the parser reads back as the expression. */
  lemma {:induction false} PiecesSpelling(e: Expr, fl: FloatLib)
    requires Printable(e, fl) && Parsing.Parseable(e)
    ensures PieceTokens(Pieces(e, fl), fl) == Parsing.Spelling(e)
    decreases e, 1
  {
    match e
    case Combination(es) =>
      PrintableIsParseable(e, fl);
      JoinedSpelling(es, fl);
      var j := PiecesJoined(es, fl);
      PieceTokensAppend([OpenParen], j, fl);
      PieceTokensAppend([OpenParen] + j, [CloseParen], fl);
    case Identifier(id) =>
    case NumberLiteral(n) =>
      FromStrNumberText(n.i, fl);
  }

  lemma {:induction false} JoinedSpelling(es: seq<Expr>, fl: FloatLib)
    requires forall k :: 0 <= k < |es| ==> Printable(es[k], fl) && Parsing.Parseable(es[k])
    ensures PieceTokens(PiecesJoined(es, fl), fl) == Parsing.SpellingAll(es)
    decreases es, 0
  {
    if |es| == 1 {
      PiecesSpelling(es[0], fl);
      assert Parsing.SpellingAll(es[1..]) == [];
    } else if |es| > 1 {
      PiecesSpelling(es[0], fl);
      JoinedSpelling(es[1..], fl);
      var p := Pieces(es[0], fl);
      PieceTokensAppend(p, [Space], fl);
      PieceTokensAppend(p + [Space], PiecesJoined(es[1..], fl), fl);
    }
  }

  /** Tokenizing and parsing the display of a printable expression gives the expression back. */
  lemma DisplayReadsBack(e: Expr, fl: FloatLib)
    requires Printable(e, fl)
    ensures IsLibExpression(e)
    ensures Parsing.ParseOne(Tokenize(Display(e, fl), fl)) == (Success(Some(e)), [])
  {
    PrintableIsParseable(e, fl);
    PiecesWellFormed(e, fl);
    RenderPieces(e, fl);
    TokenizeRender(Pieces(e, fl), fl);
    PiecesSpelling(e, fl);
    Parsing.ParseSpelling(e, []);
    assert Parsing.Spelling(e) + [] == Parsing.Spelling(e);
  }
}
