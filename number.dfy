/**
 * The numeric tower: a number is an exact 64-bit integer or an f64.
 *
 * The f64 values and their arithmetic belong to the host and are not modelled: `F64` is an
 * opaque type and every f64 operation the source uses is a field of a `FloatLib` record that
 * the caller passes in. Integer payloads are unbounded `int`s; `InI64` says which of them an
 * `i64` can hold.
 */
module Numbers {
  import opened Wrappers
  import opened Text

  /** An f64 value, kept opaque. */
  type F64(==)

  /** The f64 operations of the host that the source relies on. */
  datatype FloatLib = FloatLib(
    ofInt: int -> F64,                // the conversion `i as f64`
    add: (F64, F64) -> F64,
    sub: (F64, F64) -> F64,
    mul: (F64, F64) -> F64,
    eq: (F64, F64) -> bool,           // f64 `==`
    parse: string -> Option<F64>,     // `str::parse::<f64>`
    format: F64 -> string)            // the `{:+.4e}` rendering

  datatype Number = Int(i: int) | Float(f: F64)

  predicate InI64(x: int) {
    -0x8000_0000_0000_0000 <= x < 0x8000_0000_0000_0000
  }

  /**
   * The operators on `Number` that the evaluator uses but that no modelled file defines
   * (`Neg`, `Div` and the `>` and `<` of `PartialOrd`), together with the f64 library.
   */
  datatype Arith = Arith(
    fl: FloatLib,
    neg: Number -> Number,
    div: (Number, Number) -> Number,
    gt: (Number, Number) -> bool,
    lt: (Number, Number) -> bool)

  /** What the evaluator's tests fix about the undefined operators: (- 42) and (/ 10 5). */
  predicate AgreesWithTests(ar: Arith) {
    ar.neg(Int(42)) == Int(-42) && ar.div(Int(10), Int(5)) == Int(2)
  }

  /** The operand as an f64: an Int is converted with `as f64`, a Float is itself. */
  function Promote(n: Number, fl: FloatLib): F64 {
    match n
    case Int(a) => fl.ofInt(a)
    case Float(a) => a
  }

  /**
   * `apply_binary_op`: the integer operator when both operands are Int, otherwise the float
   * operator on both operands with the Int one (if any) promoted.
   */
  function ApplyBinaryOp(a: Number, b: Number, opInt: (int, int) -> int,
                         opFloat: (F64, F64) -> F64, fl: FloatLib): (r: Number)
    ensures r.Int? <==> a.Int? && b.Int?
    ensures r.Int? ==> r.i == opInt(a.i, b.i)
    ensures r.Float? ==> r.f == opFloat(Promote(a, fl), Promote(b, fl))
  {
    match (a, b)
    case (Int(x), Int(y)) => Int(opInt(x, y))
    case (Float(x), Float(y)) => Float(opFloat(x, y))
    case (Int(x), Float(y)) => Float(opFloat(fl.ofInt(x), y))
    case (Float(x), Int(y)) => Float(opFloat(x, fl.ofInt(y)))
  }

  function Add(a: Number, b: Number, fl: FloatLib): (r: Number)
    ensures r.Int? <==> a.Int? && b.Int?
    ensures r.Int? ==> r.i == a.i + b.i
    ensures r.Float? ==> r.f == fl.add(Promote(a, fl), Promote(b, fl))
  {
    ApplyBinaryOp(a, b, (x, y) => x + y, fl.add, fl)
  }

  function Sub(a: Number, b: Number, fl: FloatLib): (r: Number)
    ensures r.Int? <==> a.Int? && b.Int?
    ensures r.Int? ==> r.i == a.i - b.i
    ensures r.Float? ==> r.f == fl.sub(Promote(a, fl), Promote(b, fl))
  {
    ApplyBinaryOp(a, b, (x, y) => x - y, fl.sub, fl)
  }

  function Mul(a: Number, b: Number, fl: FloatLib): (r: Number)
    ensures r.Int? <==> a.Int? && b.Int?
    ensures r.Int? ==> r.i == a.i * b.i
    ensures r.Float? ==> r.f == fl.mul(Promote(a, fl), Promote(b, fl))
  {
    ApplyBinaryOp(a, b, (x, y) => x * y, fl.mul, fl)
  }

  /** `PartialEq`: integers compare exactly; any other pair compares as f64 after promotion. */
  function Equals(a: Number, b: Number, fl: FloatLib): (r: bool)
    ensures a.Int? && b.Int? ==> (r <==> a.i == b.i)
    ensures !(a.Int? && b.Int?) ==> (r <==> fl.eq(Promote(a, fl), Promote(b, fl)))
  {
    match (a, b)
    case (Int(x), Int(y)) => x == y
    case (Float(x), Float(y)) => fl.eq(x, y)
    case (Int(x), Float(y)) => fl.eq(fl.ofInt(x), y)
    case (Float(x), Int(y)) => fl.eq(x, fl.ofInt(y))
  }

  /** The sign and digits of an `i64` literal: an optional '+' or '-', then at least one digit. */
  function SplitSign(s: string): (bool, string) {
    if |s| > 0 && (s[0] == '-' || s[0] == '+') then (s[0] == '-', s[1..]) else (false, s)
  }

  /** `str::parse::<i64>`: an optional sign, one or more ASCII digits, a value in range. */
  function ParseI64(s: string): (r: Option<int>)
    ensures r.Some? ==> InI64(r.value)
    ensures r.Some? ==> |s| > 0 && (IsDigit(s[0]) || s[0] == '-' || s[0] == '+')
  {
    var (negative, digits) := SplitSign(s);
    if |digits| == 0 || !AllDigits(digits) then None
    else
      var v := if negative then 0 - (DigitsValue(digits) as int) else DigitsValue(digits) as int;
      if InI64(v) then Some(v) else None
  }

  /**
   * Which texts `ParseI64` accepts and what it reads: a run of ASCII digits, bare or after one
   * '+' or '-', is accepted exactly when its signed decimal value is within `i64`.
   */
  lemma ParseI64Signed(d: string)
    requires |d| > 0 && AllDigits(d)
    ensures ParseI64(d) == (if InI64(DigitsValue(d)) then Some(DigitsValue(d) as int) else None)
    ensures ParseI64("+" + d) == ParseI64(d)
    ensures ParseI64("-" + d) == (if InI64(-(DigitsValue(d) as int)) then Some(-(DigitsValue(d) as int)) else None)
  {
    ParseUnsigned(d);
    ParsePlus(d);
    ParseMinus(d);
  }

  lemma ParseUnsigned(d: string)
    requires |d| > 0 && AllDigits(d)
    ensures ParseI64(d) == (if InI64(DigitsValue(d)) then Some(DigitsValue(d) as int) else None)
  {
    assert IsDigit(d[0]);
    assert SplitSign(d) == (false, d);
  }

  lemma ParsePlus(d: string)
    requires |d| > 0 && AllDigits(d)
    ensures ParseI64("+" + d) == ParseI64(d)
  {
    assert ("+" + d)[0] == '+' && ("+" + d)[1..] == d;
    assert SplitSign("+" + d) == (false, d);
    ParseUnsigned(d);
  }

  lemma ParseMinus(d: string)
    requires |d| > 0 && AllDigits(d)
    ensures ParseI64("-" + d) == (if InI64(-(DigitsValue(d) as int)) then Some(-(DigitsValue(d) as int)) else None)
  {
    assert ("-" + d)[0] == '-' && ("-" + d)[1..] == d;
    assert SplitSign("-" + d) == (true, d);
  }

  /** Text with no digit after the optional sign, or with any other character in it, is refused. */
  lemma ParseI64Rejects(s: string, k: nat)
    requires k < |s| && !IsDigit(s[k])
    requires k > 0 || (s[0] != '+' && s[0] != '-') || |s| == 1
    ensures ParseI64(s) == None
  {
    var (_, digits) := SplitSign(s);
    if k > 0 && (s[0] == '+' || s[0] == '-') {
      assert digits[k - 1] == s[k];
    } else if k == 0 && (s[0] == '+' || s[0] == '-') {
      assert digits == [];
    } else {
      assert digits[k] == s[k];
    }
  }

  /** Leading zeros do not change what is read. */
  lemma ParseI64LeadingZero(d: string)
    requires |d| > 0 && AllDigits(d)
    ensures ParseI64("0" + d) == ParseI64(d)
  {
    LeadingZeroValue(d);
  }

  lemma {:induction false} LeadingZeroValue(d: string)
    requires AllDigits(d)
    ensures AllDigits("0" + d) && DigitsValue("0" + d) == DigitsValue(d)
    decreases |d|
  {
    if d != [] {
      var init := d[..|d| - 1];
      LeadingZeroValue(init);
      assert ("0" + d)[..|d|] == "0" + init;
      assert ("0" + d)[|d|] == d[|d| - 1];
    }
  }

  /** Every `i64` reads back from its decimal rendering. */
  lemma ParseI64Decimal(n: int)
    requires InI64(n)
    ensures ParseI64(IntDecimal(n)) == Some(n)
  {
    if n < 0 {
      NatDigitsValue(-n);
      assert ("-" + NatDigits(-n))[1..] == NatDigits(-n);
    } else {
      NatDigitsValue(n);
    }
  }

  /**
   * `Number::from_str`: an integer when the text parses as `i64`, otherwise a float when it
   * parses as `f64`, otherwise `ParseNumberError` (here `None`).
   */
  function FromStr(s: string, fl: FloatLib): (r: Option<Number>)
    ensures ParseI64(s).Some? ==> r == Some(Int(ParseI64(s).value))
    ensures r.Some? && r.value.Float? ==> ParseI64(s).None? && fl.parse(s) == Some(r.value.f)
    ensures r.None? <==> ParseI64(s).None? && fl.parse(s).None?
  {
    match ParseI64(s)
    case Some(v) => Some(Int(v))
    case None =>
      match fl.parse(s)
      case Some(x) => Some(Float(x))
      case None => None
  }

  /** `Display`: an Int as plain decimal, a Float in the host's `{:+.4e}` form. */
  function NumberText(n: Number, fl: FloatLib): string {
    match n
    case Int(v) => IntDecimal(v)
    case Float(v) => fl.format(v)
  }

  /** The text of an `i64` Int is read back by `from_str` as the same Int. */
  lemma FromStrNumberText(n: int, fl: FloatLib)
    requires InI64(n)
    ensures FromStr(NumberText(Int(n), fl), fl) == Some(Int(n))
  {
    ParseI64Decimal(n);
  }

  /**
   * The older `Add` of the standalone number file, written as one match over the four tag
   * combinations.
   */
  function EarlyAdd(a: Number, b: Number, fl: FloatLib): (r: Number)
    ensures r.Int? <==> a.Int? && b.Int?
    ensures r.Int? ==> r.i == a.i + b.i
    ensures a.Int? && b.Float? ==> r == Float(fl.add(fl.ofInt(a.i), b.f))
    ensures a.Float? && b.Int? ==> r == Float(fl.add(a.f, fl.ofInt(b.i)))
  {
    match (a, b)
    case (Int(x), Int(y)) => Int(x + y)
    case (Float(x), Float(y)) => Float(fl.add(x, y))
    case (Int(x), Float(y)) => Float(fl.add(fl.ofInt(x), y))
    case (Float(x), Int(y)) => Float(fl.add(x, fl.ofInt(y)))
  }

  /** The older addition and the one routed through `apply_binary_op` agree on every input. */
  lemma EarlyAddAgrees(a: Number, b: Number, fl: FloatLib)
    ensures EarlyAdd(a, b, fl) == Add(a, b, fl)
  {
  }

  /** Equality is symmetric whenever f64 `==` is. */
  lemma EqualsSymmetric(a: Number, b: Number, fl: FloatLib)
    requires forall x, y :: fl.eq(x, y) == fl.eq(y, x)
    ensures Equals(a, b, fl) == Equals(b, a, fl)
  {
  }
}
