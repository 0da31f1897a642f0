/**
 * The tokenizer of the library: parentheses, string literals, and bare runs that are number
 * literals when `Number::from_str` accepts them and identifiers otherwise.
 */
module Tokens {
  import opened Wrappers
  import opened Text
  import opened Numbers
  import opened Lexer

  datatype Token = LParen | RParen | Identifier(id: string) | StringLiteral(text: string) | NumberLiteral(n: Number)

  /** How a lexeme becomes a token. */
  function Classify(l: Lexeme, fl: FloatLib): (t: Token)
    ensures l == Open <==> t == LParen
    ensures l == Close <==> t == RParen
    ensures l.Quoted? <==> t.StringLiteral?
    ensures l.Quoted? ==> t.text == l.text
    ensures l.Bare? ==> (t.NumberLiteral? <==> FromStr(l.text, fl).Some?)
    ensures l.Bare? && t.NumberLiteral? ==> t.n == FromStr(l.text, fl).value
    ensures l.Bare? && t.Identifier? ==> t.id == l.text
  {
    match l
    case Open => LParen
    case Close => RParen
    case Quoted(text) => StringLiteral(text)
    case Bare(text) =>
      match FromStr(text, fl)
      case Some(v) => NumberLiteral(v)
      case None => Identifier(text)
  }

  /** `Tokenizer::next` on the remaining input `s`: the token and what is left. */
  function NextToken(s: string, fl: FloatLib): (out: (Option<Token>, string))
    ensures out.0.None? <==> AllWhitespace(s)
    ensures out.0.Some? ==> |out.1| < |s|
  {
    match Scan(s)
    case (Some(l), rest) => (Some(Classify(l, fl)), rest)
    case (None, rest) => (None, rest)
  }

  /** Every token of `s`, in order: `tokenize(s).collect()`. */
  function Tokenize(s: string, fl: FloatLib): (ts: seq<Token>)
    ensures ts == [] <==> AllWhitespace(s)
    ensures |ts| <= |s|
    decreases |s|
  {
    match NextToken(s, fl)
    case (Some(t), rest) => [t] + Tokenize(rest, fl)
    case (None, _) => []
  }

  /** One step of `Tokenize`: the next token, then the tokens of what is left. */
  lemma TokenizeStep(s: string, fl: FloatLib)
    ensures NextToken(s, fl).0.Some? ==> Tokenize(s, fl) == [NextToken(s, fl).0.value] + Tokenize(NextToken(s, fl).1, fl)
    ensures NextToken(s, fl).0.None? ==> Tokenize(s, fl) == []
  {
  }

  /** `tokenize`: a tokenizer over the characters of `input`. */
  class Tokenizer {
    const scanner: Scanner
    const fl: FloatLib

    constructor(input: string, fl: FloatLib)
      ensures fresh(scanner) && scanner.rest == input && this.fl == fl
    {
      scanner := new Scanner(input);
      this.fl := fl;
    }

    method Next() returns (t: Option<Token>)
      modifies scanner
      ensures (t, scanner.rest) == NextToken(old(scanner.rest), fl)
    {
      var l := scanner.Next();
      match l
      case Some(lexeme) =>
        t := Some(Classify(lexeme, fl));
      case None =>
        t := None;
    }

    /** Drains the tokenizer, as `collect::<Vec<Token>>()` does. */
    method Collect() returns (ts: seq<Token>)
      modifies scanner
      ensures ts == Tokenize(old(scanner.rest), fl)
    {
      ts := [];
      var done := false;
      while !done
        invariant ts + (if done then [] else Tokenize(scanner.rest, fl)) == Tokenize(old(scanner.rest), fl)
        decreases |scanner.rest|, !done
      {
        TokenizeStep(scanner.rest, fl);
        var t := Next();
        match t
        case Some(token) =>
          assert (ts + [token]) + Tokenize(scanner.rest, fl) == ts + ([token] + Tokenize(scanner.rest, fl));
          ts := ts + [token];
        case None =>
          done := true;
      }
    }
  }

  /** Whitespace at the front of the input changes no token. */
  lemma TokenizeSkipsSpace(s: string, fl: FloatLib)
    requires |s| > 0 && IsWhitespace(s[0])
    ensures Tokenize(s, fl) == Tokenize(s[1..], fl)
  {
    var r := s[1..];
    assert LeadingSpace(s) == 1 + LeadingSpace(r);
    assert s[LeadingSpace(s)..] == r[LeadingSpace(r)..];
    if AllWhitespace(r) {
      assert AllWhitespace(s) by {
        forall i | 0 <= i < |s| ensures IsWhitespace(s[i]) {
          if i > 0 { assert s[i] == r[i - 1]; }
        }
      }
    } else {
      assert !AllWhitespace(s) by {
        var i :| 0 <= i < |r| && !IsWhitespace(r[i]);
        assert s[i + 1] == r[i];
      }
    }
  }

  /** A parenthesis is a token of its own, whatever follows it. */
  lemma TokenizeParen(s: string, fl: FloatLib)
    requires |s| > 0 && (s[0] == '(' || s[0] == ')')
    ensures Tokenize(s, fl) == [if s[0] == '(' then LParen else RParen] + Tokenize(s[1..], fl)
  {
    assert LeadingSpace(s) == 0;
    assert s[0..] == s;
    assert !AllWhitespace(s) by { assert !IsWhitespace(s[0]); }
  }

  /** A bare run of length `k` up to a delimiter or the end is one token, classified by `from_str`. */
  lemma TokenizeBare(s: string, k: nat, fl: FloatLib)
    requires 0 < k <= |s| && s[0] != '"' && (forall i :: 0 <= i < k ==> !IsDelimiter(s[i]))
    requires k == |s| || IsDelimiter(s[k])
    ensures Tokenize(s, fl) == [Classify(Bare(s[..k]), fl)] + Tokenize(s[k..], fl)
  {
    assert LeadingSpace(s) == 0;
    assert s[0..] == s;
    assert !AllWhitespace(s) by { assert !IsWhitespace(s[0]); }
    assert BareEnd(s) == k;
  }

  /** A piece of source text: a parenthesis, a space, or a bare word. */
  datatype Piece = OpenParen | CloseParen | Space | Word(w: string)

  function PieceText(p: Piece): string {
    match p
    case OpenParen => "("
    case CloseParen => ")"
    case Space => " "
    case Word(w) => w
  }

  function Render(ps: seq<Piece>): string {
    if ps == [] then "" else PieceText(ps[0]) + Render(ps[1..])
  }

  /** A word is non-empty, has no delimiter and does not start with `"`. */
  predicate IsWord(w: string) {
    |w| > 0 && w[0] != '"' && forall j :: 0 <= j < |w| ==> !IsDelimiter(w[j])
  }

  /** Every word piece is a word, and no two words are adjacent. */
  predicate WellFormedPieces(ps: seq<Piece>) {
    ps == [] ||
    ((ps[0].Word? ==> IsWord(ps[0].w) && (|ps| == 1 || !ps[1].Word?)) && WellFormedPieces(ps[1..]))
  }

  /** The tokens one piece stands for. */
  function PieceToken(p: Piece, fl: FloatLib): seq<Token> {
    match p
    case OpenParen => [LParen]
    case CloseParen => [RParen]
    case Space => []
    case Word(w) => [Classify(Bare(w), fl)]
  }

  /** The tokens the pieces stand for. */
  function PieceTokens(ps: seq<Piece>, fl: FloatLib): seq<Token> {
    if ps == [] then [] else PieceToken(ps[0], fl) + PieceTokens(ps[1..], fl)
  }

  /** The tokenizer reads rendered pieces back as the tokens they stand for. */
  lemma {:induction false} TokenizeRender(ps: seq<Piece>, fl: FloatLib)
    requires WellFormedPieces(ps)
    ensures Tokenize(Render(ps), fl) == PieceTokens(ps, fl)
    decreases |ps|
  {
    if ps != [] {
      TokenizeRender(ps[1..], fl);
      TokenizeFirstPiece(ps, fl);
    }
  }

  /** The first piece gives its own tokens, and the rest is tokenized on its own. */
  lemma TokenizeFirstPiece(ps: seq<Piece>, fl: FloatLib)
    requires ps != [] && WellFormedPieces(ps)
    ensures Tokenize(Render(ps), fl) == PieceToken(ps[0], fl) + Tokenize(Render(ps[1..]), fl)
  {
    var s := Render(ps);
    var rest := Render(ps[1..]);
    if ps[0].Word? {
      var w := ps[0].w;
      assert s == w + rest;
      assert s[..|w|] == w && s[|w|..] == rest;
      if ps[1..] != [] {
        assert !ps[1].Word?;
        RenderStart(ps[1..]);
      }
      TokenizeBare(s, |w|, fl);
    } else {
      assert s == PieceText(ps[0]) + rest;
      assert s[1..] == rest;
      if ps[0].Space? {
        TokenizeSkipsSpace(s, fl);
      } else {
        TokenizeParen(s, fl);
      }
    }
  }

  /** Rendered pieces start with the first character of the first piece. */
  lemma RenderStart(ps: seq<Piece>)
    requires ps != [] && !ps[0].Word?
    ensures |Render(ps)| > 0 && Render(ps)[0] == PieceText(ps[0])[0]
  {
  }

  /** Appending pieces appends the tokens they stand for. */
  lemma {:induction false} PieceTokensAppend(a: seq<Piece>, b: seq<Piece>, fl: FloatLib)
    ensures PieceTokens(a + b, fl) == PieceTokens(a, fl) + PieceTokens(b, fl)
    decreases |a|
  {
    if a != [] {
      assert (a + b)[0] == a[0] && (a + b)[1..] == a[1..] + b;
      PieceTokensAppend(a[1..], b, fl);
      var h := PieceToken(a[0], fl);
      calc {
        PieceTokens(a + b, fl);
        h + PieceTokens(a[1..] + b, fl);
        h + (PieceTokens(a[1..], fl) + PieceTokens(b, fl));
        (h + PieceTokens(a[1..], fl)) + PieceTokens(b, fl);
        PieceTokens(a, fl) + PieceTokens(b, fl);
      }
    } else {
      assert a + b == b;
    }
  }

  /** A piece in front of well-formed pieces keeps them well formed, unless two words meet. */
  lemma WellFormedCons(p: Piece, ps: seq<Piece>)
    requires WellFormedPieces(ps)
    requires p.Word? ==> IsWord(p.w) && (ps == [] || !ps[0].Word?)
    ensures WellFormedPieces([p] + ps)
  {
    assert ([p] + ps)[1..] == ps;
  }

  /** Appending pieces appends their text. */
  lemma {:induction false} RenderAppend(a: seq<Piece>, b: seq<Piece>)
    ensures Render(a + b) == Render(a) + Render(b)
    decreases |a|
  {
    if a != [] {
      assert (a + b)[0] == a[0] && (a + b)[1..] == a[1..] + b;
      RenderAppend(a[1..], b);
      var h := PieceText(a[0]);
      calc {
        Render(a + b);
        h + Render(a[1..] + b);
        h + (Render(a[1..]) + Render(b));
        (h + Render(a[1..])) + Render(b);
        Render(a) + Render(b);
      }
    } else {
      assert a + b == b;
    }
  }

  lemma RenderCons(p: Piece, ps: seq<Piece>)
    ensures Render([p] + ps) == PieceText(p) + Render(ps)
  {
    assert ([p] + ps)[0] == p && ([p] + ps)[1..] == ps;
  }

  lemma RenderFive(p0: Piece, p1: Piece, p2: Piece, p3: Piece, p4: Piece)
    ensures Render([p0, p1, p2, p3, p4]) ==
            PieceText(p0) + (PieceText(p1) + (PieceText(p2) + (PieceText(p3) + PieceText(p4))))
  {
    RenderCons(p4, []);
    RenderCons(p3, [p4]);
    RenderCons(p2, [p3, p4]);
    RenderCons(p1, [p2, p3, p4]);
    RenderCons(p0, [p1, p2, p3, p4]);
    assert [p0] + [p1, p2, p3, p4] == [p0, p1, p2, p3, p4];
    assert [p1] + [p2, p3, p4] == [p1, p2, p3, p4];
    assert [p2] + [p3, p4] == [p2, p3, p4];
    assert [p3] + [p4] == [p3, p4];
    assert [p4] + [] == [p4];
  }

  /** The input of the `basics` test, as pieces, in three runs of five. */
  function BasicsPieces(): seq<Piece> {
    BasicsRunA() + BasicsRunB() + BasicsRunC()
  }

  function BasicsRunA(): seq<Piece> {
    [OpenParen, Word("quote"), Space, OpenParen, Word("testing")]
  }

  function BasicsRunB(): seq<Piece> {
    [Space, Word("1"), Space, OpenParen, Word("2.0")]
  }

  function BasicsRunC(): seq<Piece> {
    [CloseParen, Space, Word("-3.14e159"), CloseParen, CloseParen]
  }

  lemma BasicsRender()
    ensures Render(BasicsPieces()) == "(quote (testing 1 (2.0) -3.14e159))"
  {
    RenderAppend(BasicsRunA() + BasicsRunB(), BasicsRunC());
    RenderAppend(BasicsRunA(), BasicsRunB());
    RenderRunA();
    RenderRunB();
    RenderRunC();
    BasicsInputSplit();
  }

  /** The input of the `basics` test cut where the runs meet. */
  lemma BasicsInputSplit()
    ensures "(quote (testing" + " 1 (2.0" + ") -3.14e159))" == "(quote (testing 1 (2.0) -3.14e159))"
  {
    var s := "(quote (testing 1 (2.0) -3.14e159))";
    assert s[..15] == "(quote (testing";
    assert s[15..22] == " 1 (2.0";
    assert s[22..] == ") -3.14e159))";
    assert s == s[..15] + s[15..22] + s[22..];
  }

  lemma RenderRunA()
    ensures Render(BasicsRunA()) == "(quote (testing"
  {
    RenderFive(OpenParen, Word("quote"), Space, OpenParen, Word("testing"));
  }

  lemma RenderRunB()
    ensures Render(BasicsRunB()) == " 1 (2.0"
  {
    RenderFive(Space, Word("1"), Space, OpenParen, Word("2.0"));
  }

  lemma RenderRunC()
    ensures Render(BasicsRunC()) == ") -3.14e159))"
  {
    RenderFive(CloseParen, Space, Word("-3.14e159"), CloseParen, CloseParen);
  }

  /** A word of digits, letters, '.' and '-' is a word. */
  lemma PlainWord(w: string)
    requires |w| > 0 && forall j :: 0 <= j < |w| ==> w[j] == '.' || w[j] == '-' || 'a' <= w[j] <= 'z' || '0' <= w[j] <= '9'
    ensures IsWord(w)
  {
  }

  /** Well-formed pieces stay well formed when appended, unless two words meet at the seam. */
  lemma {:induction false} WellFormedAppend(a: seq<Piece>, b: seq<Piece>)
    requires WellFormedPieces(a) && WellFormedPieces(b)
    requires a != [] && b != [] ==> !(a[|a| - 1].Word? && b[0].Word?)
    ensures WellFormedPieces(a + b)
    decreases |a|
  {
    if a == [] {
      assert a + b == b;
    } else {
      assert (a + b)[0] == a[0] && (a + b)[1..] == a[1..] + b;
      WellFormedAppend(a[1..], b);
      if |a| == 1 {
        assert a[1..] + b == b;
      } else {
        assert (a + b)[1] == a[1];
      }
    }
  }

  lemma WellFormedRunA()
    ensures WellFormedPieces(BasicsRunA())
  {
    PlainWord("quote");
    PlainWord("testing");
    var ps: seq<Piece> := [Word("testing")];
    WellFormedCons(Word("testing"), []);
    WellFormedCons(OpenParen, ps); ps := [OpenParen] + ps;
    WellFormedCons(Space, ps); ps := [Space] + ps;
    WellFormedCons(Word("quote"), ps); ps := [Word("quote")] + ps;
    WellFormedCons(OpenParen, ps); ps := [OpenParen] + ps;
    assert ps == BasicsRunA();
  }

  lemma WellFormedRunB()
    ensures WellFormedPieces(BasicsRunB())
  {
    PlainWord("1");
    PlainWord("2.0");
    var ps: seq<Piece> := [Word("2.0")];
    WellFormedCons(Word("2.0"), []);
    WellFormedCons(OpenParen, ps); ps := [OpenParen] + ps;
    WellFormedCons(Space, ps); ps := [Space] + ps;
    WellFormedCons(Word("1"), ps); ps := [Word("1")] + ps;
    WellFormedCons(Space, ps); ps := [Space] + ps;
    assert ps == BasicsRunB();
  }

  lemma WellFormedRunC()
    ensures WellFormedPieces(BasicsRunC())
  {
    PlainWord("-3.14e159");
    var ps: seq<Piece> := [CloseParen];
    WellFormedCons(CloseParen, []);
    WellFormedCons(CloseParen, ps); ps := [CloseParen] + ps;
    WellFormedCons(Word("-3.14e159"), ps); ps := [Word("-3.14e159")] + ps;
    WellFormedCons(Space, ps); ps := [Space] + ps;
    WellFormedCons(CloseParen, ps); ps := [CloseParen] + ps;
    assert ps == BasicsRunC();
  }

  lemma BasicsWellFormed()
    ensures WellFormedPieces(BasicsPieces())
  {
    WellFormedRunA();
    WellFormedRunB();
    WellFormedRunC();
    WellFormedAppend(BasicsRunA(), BasicsRunB());
    WellFormedAppend(BasicsRunA() + BasicsRunB(), BasicsRunC());
  }

  lemma PieceTokensCons(p: Piece, ps: seq<Piece>, fl: FloatLib)
    ensures PieceTokens([p] + ps, fl) == PieceToken(p, fl) + PieceTokens(ps, fl)
  {
    assert ([p] + ps)[0] == p && ([p] + ps)[1..] == ps;
  }

  lemma PieceTokensFive(p0: Piece, p1: Piece, p2: Piece, p3: Piece, p4: Piece, fl: FloatLib)
    ensures PieceTokens([p0, p1, p2, p3, p4], fl) ==
            PieceToken(p0, fl) + (PieceToken(p1, fl) + (PieceToken(p2, fl) + (PieceToken(p3, fl) + PieceToken(p4, fl))))
  {
    PieceTokensCons(p4, [], fl);
    PieceTokensCons(p3, [p4], fl);
    PieceTokensCons(p2, [p3, p4], fl);
    PieceTokensCons(p1, [p2, p3, p4], fl);
    PieceTokensCons(p0, [p1, p2, p3, p4], fl);
    assert [p0] + [p1, p2, p3, p4] == [p0, p1, p2, p3, p4];
    assert [p1] + [p2, p3, p4] == [p1, p2, p3, p4];
    assert [p2] + [p3, p4] == [p2, p3, p4];
    assert [p3] + [p4] == [p3, p4];
    assert [p4] + [] == [p4];
  }

  /**
   * The `basics` test: the whole input tokenizes to its eleven tokens, given how the host
   * reads the two float words and refuses the two identifiers.
   */
  lemma BasicsTokens(fl: FloatLib)
    requires fl.parse("quote").None? && fl.parse("testing").None?
    requires fl.parse("2.0").Some? && fl.parse("-3.14e159").Some?
    ensures Tokenize("(quote (testing 1 (2.0) -3.14e159))", fl) ==
      [LParen, Identifier("quote"), LParen, Identifier("testing"), NumberLiteral(Int(1)),
       LParen, NumberLiteral(Float(fl.parse("2.0").value)), RParen,
       NumberLiteral(Float(fl.parse("-3.14e159").value)), RParen, RParen]
  {
    BasicsRender();
    BasicsWellFormed();
    TokenizeRender(BasicsPieces(), fl);
    BasicsPieceTokens(fl);
  }

  lemma BasicsPieceTokens(fl: FloatLib)
    requires fl.parse("quote").None? && fl.parse("testing").None?
    requires fl.parse("2.0").Some? && fl.parse("-3.14e159").Some?
    ensures PieceTokens(BasicsPieces(), fl) ==
      [LParen, Identifier("quote"), LParen, Identifier("testing"), NumberLiteral(Int(1)),
       LParen, NumberLiteral(Float(fl.parse("2.0").value)), RParen,
       NumberLiteral(Float(fl.parse("-3.14e159").value)), RParen, RParen]
  {
    PieceTokensAppend(BasicsRunA() + BasicsRunB(), BasicsRunC(), fl);
    PieceTokensAppend(BasicsRunA(), BasicsRunB(), fl);
    TokensRunA(fl);
    TokensRunB(fl);
    TokensRunC(fl);
  }

  lemma TokensRunA(fl: FloatLib)
    requires fl.parse("quote").None? && fl.parse("testing").None?
    ensures PieceTokens(BasicsRunA(), fl) ==
            [LParen, Identifier("quote"), LParen, Identifier("testing")]
  {
    PieceTokensFive(OpenParen, Word("quote"), Space, OpenParen, Word("testing"), fl);
    assert Classify(Bare("quote"), fl) == Identifier("quote");
    assert Classify(Bare("testing"), fl) == Identifier("testing");
  }

  lemma TokensRunB(fl: FloatLib)
    requires fl.parse("2.0").Some?
    ensures PieceTokens(BasicsRunB(), fl) ==
            [NumberLiteral(Int(1)), LParen, NumberLiteral(Float(fl.parse("2.0").value))]
  {
    PieceTokensFive(Space, Word("1"), Space, OpenParen, Word("2.0"), fl);
    assert ParseI64("1") == Some(1);
    assert !IsDigit("2.0"[1]);
  }

  lemma TokensRunC(fl: FloatLib)
    requires fl.parse("-3.14e159").Some?
    ensures PieceTokens(BasicsRunC(), fl) ==
            [RParen, NumberLiteral(Float(fl.parse("-3.14e159").value)), RParen, RParen]
  {
    PieceTokensFive(CloseParen, Space, Word("-3.14e159"), CloseParen, CloseParen, fl);
    assert SplitSign("-3.14e159").1 == "3.14e159" && !IsDigit("3.14e159"[1]);
  }
}
