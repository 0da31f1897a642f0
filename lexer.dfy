/**
 * The character scanner both tokenizers share: skip whitespace, then a parenthesis, a
 * quoted string, or a bare run up to whitespace or a parenthesis. How a bare run becomes a
 * token is up to each tokenizer (modules Tokens and EarlyTokens).
 */
module Lexer {
  import opened Wrappers

  /** Rust's `char::is_whitespace`: the Unicode White_Space property. */
  predicate IsWhitespace(c: char) {
    ('\t' <= c <= '\r') || c == ' ' || c == '\U{85}' || c == '\U{A0}' || c == '\U{1680}' ||
    ('\U{2000}' <= c <= '\U{200A}') || c == '\U{2028}' || c == '\U{2029}' || c == '\U{202F}' ||
    c == '\U{205F}' || c == '\U{3000}'
  }

  /** What ends a bare run. A `"` does not. */
  predicate IsDelimiter(c: char) {
    IsWhitespace(c) || c == '(' || c == ')'
  }

  predicate AllWhitespace(s: string) {
    forall i :: 0 <= i < |s| ==> IsWhitespace(s[i])
  }

  /** What one call of the scanner consumed, before classification. */
  datatype Lexeme = Open | Close | Quoted(text: string) | Bare(text: string)

  /** The length of the whitespace at the front of `s`. */
  function LeadingSpace(s: string): (n: nat)
    ensures n <= |s| && AllWhitespace(s[..n]) && (n < |s| ==> !IsWhitespace(s[n]))
  {
    if s == [] || !IsWhitespace(s[0]) then 0
    else
      var n := 1 + LeadingSpace(s[1..]);
      assert forall i :: 1 <= i < n ==> s[..n][i] == s[1..][..n - 1][i - 1];
      n
  }

  /** The length of the text before the first `"` of `s`, or all of `s` when it has none. */
  function QuoteEnd(s: string): (n: nat)
    ensures n <= |s| && (forall i :: 0 <= i < n ==> s[i] != '"') && (n < |s| ==> s[n] == '"')
  {
    if s == [] || s[0] == '"' then 0 else 1 + QuoteEnd(s[1..])
  }

  /** The length of the longest prefix of `s` with no delimiter. */
  function BareEnd(s: string): (n: nat)
    ensures n <= |s| && (forall i :: 0 <= i < n ==> !IsDelimiter(s[i])) && (n < |s| ==> IsDelimiter(s[n]))
  {
    if s == [] || IsDelimiter(s[0]) then 0 else 1 + BareEnd(s[1..])
  }

  /** A string after its opening `"`: the text up to the next `"`, which is dropped, or to the end. */
  function ScanQuoted(t: string): (out: (string, string))
    ensures (forall i :: 0 <= i < |out.0| ==> out.0[i] != '"')
    ensures t == out.0 + "\"" + out.1 || (out.1 == [] && t == out.0)
  {
    var n := QuoteEnd(t);
    if n < |t| then
      assert t == t[..n] + "\"" + t[n + 1..];
      (t[..n], t[n + 1..])
    else
      (t, [])
  }

  /** A bare run from its first character: up to whitespace, a parenthesis or the end. */
  function ScanBare(t: string): (out: (string, string))
    requires t != [] && !IsDelimiter(t[0])
    ensures t == out.0 + out.1 && |out.0| > 0
    ensures (forall i :: 0 <= i < |out.0| ==> !IsDelimiter(out.0[i])) && (out.1 == [] || IsDelimiter(out.1[0]))
  {
    var n := BareEnd(t);
    assert t == t[..n] + t[n..];
    (t[..n], t[n..])
  }

  /**
   * The input from its first character that is not whitespace: what that character starts,
   * and what is left. What was consumed spells the lexeme (an unterminated string is closed
   * by the end of the input).
   */
  function ScanLexeme(t: string): (out: (Lexeme, string))
    requires t != [] && !IsWhitespace(t[0])
    ensures |out.1| < |t|
    ensures out.0 == Open <==> t[0] == '('
    ensures out.0 == Close <==> t[0] == ')'
    ensures out.0 == Open ==> t == "(" + out.1
    ensures out.0 == Close ==> t == ")" + out.1
    ensures out.0.Quoted? <==> t[0] == '"'
    ensures out.0.Quoted? ==>
              (forall i :: 0 <= i < |out.0.text| ==> out.0.text[i] != '"') &&
              (t == "\"" + out.0.text + "\"" + out.1 || (out.1 == [] && t == "\"" + out.0.text))
    ensures out.0.Bare? ==>
              && t == out.0.text + out.1
              && |out.0.text| > 0 && out.0.text[0] != '"'
              && (forall i :: 0 <= i < |out.0.text| ==> !IsDelimiter(out.0.text[i]))
              && (out.1 == [] || IsDelimiter(out.1[0]))
  {
    if t[0] == '(' then
      assert t == "(" + t[1..];
      (Open, t[1..])
    else if t[0] == ')' then
      assert t == ")" + t[1..];
      (Close, t[1..])
    else if t[0] == '"' then
      var (text, rest) := ScanQuoted(t[1..]);
      assert t == "\"" + t[1..];
      (Quoted(text), rest)
    else
      var (text, rest) := ScanBare(t);
      (Bare(text), rest)
  }

  /**
   * One step of the scanner on the remaining input `s`: nothing exactly when only whitespace
   * is left, otherwise the whitespace is skipped and the lexeme after it scanned.
   */
  function Scan(s: string): (out: (Option<Lexeme>, string))
    ensures out.0.None? <==> AllWhitespace(s)
    ensures out.0.None? ==> out.1 == []
    ensures out.0.Some? ==> LeadingSpace(s) < |s| && out == (Some(ScanLexeme(s[LeadingSpace(s)..]).0), ScanLexeme(s[LeadingSpace(s)..]).1)
  {
    var k := LeadingSpace(s);
    if k == |s| then
      assert s[..k] == s;
      (None, [])
    else
      assert !AllWhitespace(s) by { assert !IsWhitespace(s[k]); }
      var (l, rest) := ScanLexeme(s[k..]);
      (Some(l), rest)
  }

  /** The remaining input of a tokenizer: its `Peekable<Chars>` field. */
  class Scanner {
    var rest: string

    constructor(input: string)
      ensures rest == input
    {
      rest := input;
    }

    /** Consumes one lexeme, character by character, as `Tokenizer::next` does. */
    method Next() returns (l: Option<Lexeme>)
      modifies this
      ensures (l, rest) == Scan(old(rest))
    {
      SkipWhitespace();
      if rest == [] {
        return None;
      }
      ghost var t := rest;
      var c := rest[0];
      rest := rest[1..];
      assert t == [c] + rest;
      if c == '(' {
        l := Some(Open);
      } else if c == ')' {
        l := Some(Close);
      } else if c == '"' {
        var text := ReadQuoted();
        l := Some(Quoted(text));
      } else {
        var text := ReadBare(c);
        l := Some(Bare(text));
      }
      assert ScanLexeme(t) == (l.value, rest);
    }

    /** Drops the whitespace at the front. */
    method SkipWhitespace()
      modifies this
      ensures rest == old(rest)[LeadingSpace(old(rest))..]
    {
      ghost var k := 0;
      while rest != [] && IsWhitespace(rest[0])
        invariant k <= LeadingSpace(old(rest)) && rest == old(rest)[k..]
        decreases |rest|
      {
        rest := rest[1..];
        k := k + 1;
      }
    }

    /** Reads a string body after its opening `"`, and the closing `"` if there is one. */
    method ReadQuoted() returns (text: string)
      modifies this
      ensures (text, rest) == ScanQuoted(old(rest))
    {
      text := "";
      while rest != [] && rest[0] != '"'
        invariant |text| <= QuoteEnd(old(rest)) && rest == old(rest)[|text|..] && text == old(rest)[..|text|]
        decreases |rest|
      {
        text := text + [rest[0]];
        rest := rest[1..];
      }
      ghost var n := |text|;
      assert n == QuoteEnd(old(rest));
      if rest != [] {
        rest := rest[1..];
        assert rest == old(rest)[n + 1..];
      } else {
        assert text == old(rest);
      }
    }

    /** Reads the rest of a bare run whose first character `c` was just consumed. */
    method ReadBare(c: char) returns (text: string)
      requires !IsDelimiter(c)
      modifies this
      ensures (text, rest) == ScanBare([c] + old(rest))
    {
      ghost var t := [c] + rest;
      text := [c];
      while rest != [] && !IsDelimiter(rest[0])
        invariant 1 <= |text| <= BareEnd(t) && rest == t[|text|..] && text == t[..|text|]
        decreases |rest|
      {
        text := text + [rest[0]];
        rest := rest[1..];
      }
    }
  }
}
