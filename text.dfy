/** Decimal rendering and joining of strings, shared by the `Display` implementations. */
module Text {

  predicate IsDigit(c: char) {
    '0' <= c <= '9'
  }

  predicate AllDigits(s: string) {
    forall i :: 0 <= i < |s| ==> IsDigit(s[i])
  }

  function DigitValue(c: char): nat
    requires IsDigit(c)
  {
    (c as int) - ('0' as int)
  }

  function DigitChar(d: nat): (c: char)
    requires d < 10
    ensures IsDigit(c) && DigitValue(c) == d
  {
    (('0' as int) + d) as char
  }

  /** The value of a run of ASCII digits, most significant digit first. */
  function DigitsValue(s: string): nat
    requires AllDigits(s)
  {
    if s == [] then 0 else DigitsValue(s[..|s| - 1]) * 10 + DigitValue(s[|s| - 1])
  }

  /** The decimal digits of `n`, without leading zeros ("0" for zero). */
  function NatDigits(n: nat): (s: string)
    ensures |s| > 0 && AllDigits(s)
  {
    if n < 10 then [DigitChar(n)] else NatDigits(n / 10) + [DigitChar(n % 10)]
  }

  /** How `{}` renders an integer: its digits, preceded by '-' when negative. */
  function IntDecimal(n: int): string {
    if n < 0 then "-" + NatDigits(-n) else NatDigits(n)
  }

  /** Reading back the digits of `n` gives `n`. */
  lemma {:induction false} NatDigitsValue(n: nat)
    ensures DigitsValue(NatDigits(n)) == n
  {
    var s := NatDigits(n);
    if n >= 10 {
      NatDigitsValue(n / 10);
      assert s[..|s| - 1] == NatDigits(n / 10);
    }
  }

  /** `parts` joined by single spaces, as `Vec<String>::join(" ")` does. */
  function JoinSpaces(parts: seq<string>): string {
    if |parts| == 0 then ""
    else if |parts| == 1 then parts[0]
    else parts[0] + " " + JoinSpaces(parts[1..])
  }

  /** Joining two non-empty lists is joining each and putting a space between. */
  lemma {:induction false} JoinSpacesAppend(a: seq<string>, b: seq<string>)
    requires a != [] && b != []
    ensures JoinSpaces(a + b) == JoinSpaces(a) + " " + JoinSpaces(b)
  {
    if |a| == 1 {
      assert (a + b)[0] == a[0] && (a + b)[1..] == b;
    } else {
      JoinSpacesAppend(a[1..], b);
      assert (a + b)[0] == a[0] && (a + b)[1..] == a[1..] + b;
    }
  }

  /**
   * Each part appears whole in the joined string, with a space (or the start) before it and a
   * space (or the end) after it.
   */
  lemma JoinSpacesAround(parts: seq<string>, i: nat)
    requires i < |parts|
    ensures JoinSpaces(parts) == Before(parts, i) + parts[i] + After(parts, i)
  {
    var front, back := parts[..i], parts[i + 1..];
    var mid := [parts[i]] + back;
    SplitAt(parts, i);
    if back != [] {
      JoinSpacesAppend([parts[i]], back);
      AppendAssoc(parts[i], " ", JoinSpaces(back));
    }
    assert JoinSpaces(mid) == parts[i] + After(parts, i);
    if front != [] {
      JoinSpacesAppend(front, mid);
      AppendAssoc(JoinSpaces(front), " ", JoinSpaces(mid));
      AppendAssoc(Before(parts, i), parts[i], After(parts, i));
    } else {
      assert parts == mid;
    }
  }

  lemma SplitAt(parts: seq<string>, i: nat)
    requires i < |parts|
    ensures parts == parts[..i] + ([parts[i]] + parts[i + 1..])
    ensures ([parts[i]] + parts[i + 1..])[1..] == parts[i + 1..]
  {
    assert parts[i..] == [parts[i]] + parts[i + 1..];
    assert parts == parts[..i] + parts[i..];
  }

  lemma AppendAssoc(a: string, b: string, c: string)
    ensures a + b + c == a + (b + c)
  {
  }

  /** What precedes part `i` in the joined string. */
  function Before(parts: seq<string>, i: nat): string
    requires i <= |parts|
  {
    if i == 0 then "" else JoinSpaces(parts[..i]) + " "
  }

  /** What follows part `i` in the joined string. */
  function After(parts: seq<string>, i: nat): string
    requires i < |parts|
  {
    if i == |parts| - 1 then "" else " " + JoinSpaces(parts[i + 1..])
  }
}
