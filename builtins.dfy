/**
 * The builtin library: the native procedures installed in the root frame. Each takes the
 * already evaluated arguments and returns a value or an error; none of them can run out of
 * fuel.
 */
module Builtins {
  import opened Numbers
  import opened Syntax

  predicate AllNumbers(args: seq<Expr>) {
    forall i :: 0 <= i < |args| ==> args[i].NumberLiteral?
  }

  predicate AllInts(args: seq<Expr>) {
    forall i :: 0 <= i < |args| ==> args[i].NumberLiteral? && args[i].n.Int?
  }

  /** `extract_numbers`: the numbers of the arguments, or "Expecting number". */
  function ExtractNumbers(args: seq<Expr>): (r: Outcome<seq<Number>>)
    ensures !r.OutOfFuel?
    ensures r.Ok? <==> AllNumbers(args)
    ensures r.Ok? ==> |r.value| == |args| && forall i :: 0 <= i < |args| ==> r.value[i] == args[i].n
    ensures r.Err? ==> r.error == ExpectingNumber
  {
    if args == [] then Ok([])
    else if !args[0].NumberLiteral? then Err(ExpectingNumber)
    else
      match ExtractNumbers(args[1..])
      case Ok(rest) => Ok([args[0].n] + rest)
      case _ => Err(ExpectingNumber)
  }

  /** `try_fold` over the arguments: combines left to right and stops at the first non-number. */
  function TryFold(acc: Number, args: seq<Expr>, op: (Number, Number) -> Number): (r: Outcome<Number>)
    ensures !r.OutOfFuel?
    ensures r.Ok? <==> AllNumbers(args)
    ensures r.Err? ==> r.error == ExpectingNumber
    decreases |args|
  {
    if args == [] then Ok(acc)
    else if !args[0].NumberLiteral? then Err(ExpectingNumber)
    else TryFold(op(acc, args[0].n), args[1..], op)
  }

  /** The result of a fold as an expression, or its error. */
  function AsLiteral(r: Outcome<Number>): (e: Outcome<Expr>)
    requires !r.OutOfFuel?
    ensures !e.OutOfFuel? && e.Ok? == r.Ok? && (r.Err? ==> e.error == r.error)
    ensures r.Ok? ==> e.value == NumberLiteral(r.value)
  {
    match r
    case Ok(v) => Ok(NumberLiteral(v))
    case Err(err) => Err(err)
  }

  /** `builtin_add`: a sum from Int 0. */
  function BuiltinAdd(args: seq<Expr>, fl: FloatLib): (r: Outcome<Expr>)
    ensures !r.OutOfFuel?
    ensures r.Ok? <==> AllNumbers(args)
    ensures r.Err? ==> r.error == ExpectingNumber
    ensures r.Ok? ==> r.value.NumberLiteral?
  {
    AsLiteral(TryFold(Int(0), args, (a, b) => Add(a, b, fl)))
  }

  /** `builtin_mul`: a product from Int 1. */
  function BuiltinMul(args: seq<Expr>, fl: FloatLib): (r: Outcome<Expr>)
    ensures !r.OutOfFuel?
    ensures r.Ok? <==> AllNumbers(args)
    ensures r.Err? ==> r.error == ExpectingNumber
    ensures r.Ok? ==> r.value.NumberLiteral?
  {
    AsLiteral(TryFold(Int(1), args, (a, b) => Mul(a, b, fl)))
  }

  /**
   * `builtin_sub`: no argument is a count error; a non-number first argument is checked
   * next; one argument is negated; otherwise the rest are subtracted from the first.
   */
  function BuiltinSub(args: seq<Expr>, ar: Arith): (r: Outcome<Expr>)
    ensures !r.OutOfFuel?
    ensures r == Err(IncorrectArgumentCount("-")) <==> |args| == 0
    ensures r.Ok? <==> |args| > 0 && AllNumbers(args)
    ensures |args| > 0 && r.Err? ==> r.error == ExpectingNumber
    ensures |args| == 1 && r.Ok? ==> r.value == NumberLiteral(ar.neg(args[0].n))
    ensures r.Ok? ==> r.value.NumberLiteral?
  {
    if |args| == 0 then Err(IncorrectArgumentCount("-"))
    else if !args[0].NumberLiteral? then Err(ExpectingNumber)
    else if |args| == 1 then Ok(NumberLiteral(ar.neg(args[0].n)))
    else AsLiteral(TryFold(args[0].n, args[1..], (a, b) => Sub(a, b, ar.fl)))
  }

  /** `builtin_div`: like `builtin_sub`, but one argument is returned as it is. */
  function BuiltinDiv(args: seq<Expr>, ar: Arith): (r: Outcome<Expr>)
    ensures !r.OutOfFuel?
    ensures r == Err(IncorrectArgumentCount("/")) <==> |args| == 0
    ensures r.Ok? <==> |args| > 0 && AllNumbers(args)
    ensures |args| > 0 && r.Err? ==> r.error == ExpectingNumber
    ensures |args| == 1 && r.Ok? ==> r.value == args[0]
    ensures r.Ok? ==> r.value.NumberLiteral?
  {
    if |args| == 0 then Err(IncorrectArgumentCount("/"))
    else if !args[0].NumberLiteral? then Err(ExpectingNumber)
    else AsLiteral(TryFold(args[0].n, args[1..], ar.div))
  }

  /** The older `builtin_sub` of the library's `eval` module: a fold even for one argument. */
  function EarlySub(args: seq<Expr>, fl: FloatLib): (r: Outcome<Expr>)
    ensures !r.OutOfFuel?
    ensures r == Err(IncorrectArgumentCount("-")) <==> |args| == 0
    ensures r.Ok? <==> |args| > 0 && AllNumbers(args)
    ensures |args| > 0 && r.Err? ==> r.error == ExpectingNumber
    ensures |args| == 1 && r.Ok? ==> r.value == args[0]
    ensures r.Ok? ==> r.value.NumberLiteral?
  {
    if |args| == 0 then Err(IncorrectArgumentCount("-"))
    else if !args[0].NumberLiteral? then Err(ExpectingNumber)
    else AsLiteral(TryFold(args[0].n, args[1..], (a, b) => Sub(a, b, fl)))
  }

  /**
   * The comparison builtins: every argument must be a number (checked first, even for zero
   * or one argument); fewer than two numbers give true; otherwise the relation must hold of
   * every adjacent pair.
   */
  function Compare(args: seq<Expr>, rel: (Number, Number) -> bool): (r: Outcome<Expr>)
    ensures !r.OutOfFuel?
    ensures r.Ok? <==> AllNumbers(args)
    ensures r.Err? ==> r.error == ExpectingNumber
    ensures r.Ok? ==> r.value.BooleanLiteral?
    ensures r.Ok? ==> (r.value.b <==> forall i :: 1 <= i < |args| ==> rel(args[i - 1].n, args[i].n))
  {
    match ExtractNumbers(args)
    case Ok(nums) =>
      if |nums| <= 1 then Ok(BooleanLiteral(true))
      else Ok(BooleanLiteral(forall i :: 1 <= i < |nums| ==> rel(nums[i - 1], nums[i])))
    case _ => Err(ExpectingNumber)
  }

  /**
   * Calls the native procedure a builtin tag stands for. Every builtin takes numbers only; the
   * three that fold from their first argument also refuse an empty argument list; the
   * comparisons give a boolean and the others a number.
   */
  function ApplyBuiltin(b: Builtin, args: seq<Expr>, ar: Arith): (r: Outcome<Expr>)
    ensures !r.OutOfFuel?
    ensures r.Ok? <==> AllNumbers(args) && (|args| == 0 ==> b != Minus && b != Over && b != EarlyMinus)
    ensures r.Err? ==> r.error == ExpectingNumber || r.error.IncorrectArgumentCount?
    ensures r.Ok? ==> (r.value.BooleanLiteral? <==> b == Greater || b == Less || b == NumEqual)
    ensures r.Ok? ==> (r.value.NumberLiteral? <==> !(b == Greater || b == Less || b == NumEqual))
  {
    match b
    case Plus => BuiltinAdd(args, ar.fl)
    case Minus => BuiltinSub(args, ar)
    case Times => BuiltinMul(args, ar.fl)
    case Over => BuiltinDiv(args, ar)
    case Greater => Compare(args, ar.gt)
    case Less => Compare(args, ar.lt)
    case NumEqual => Compare(args, (a, b) => Equals(a, b, ar.fl))
    case EarlyMinus => EarlySub(args, ar.fl)
  }

  // ---- Reference definitions and the lemmas that connect the folds to them ----

  function IntSum(args: seq<Expr>): int
    requires AllInts(args)
  {
    if args == [] then 0 else args[0].n.i + IntSum(args[1..])
  }

  function IntProduct(args: seq<Expr>): int
    requires AllInts(args)
  {
    if args == [] then 1 else args[0].n.i * IntProduct(args[1..])
  }

  /** A fold stays Int exactly when its start and every argument are Int, whenever `op` does. */
  lemma {:induction false} FoldIntExactly(acc: Number, args: seq<Expr>, op: (Number, Number) -> Number)
    requires AllNumbers(args)
    requires forall x, y :: op(x, y).Int? <==> x.Int? && y.Int?
    ensures TryFold(acc, args, op).value.Int? <==> acc.Int? && AllInts(args)
    decreases |args|
  {
    if args != [] {
      FoldIntExactly(op(acc, args[0].n), args[1..], op);
      assert AllInts(args) <==> args[0].n.Int? && AllInts(args[1..]) by {
        if args[0].n.Int? && AllInts(args[1..]) {
          forall i | 0 <= i < |args| ensures args[i].n.Int? {
            if i > 0 { assert args[i] == args[1..][i - 1]; }
          }
        }
      }
    }
  }

  lemma {:induction false} FoldAddInts(a: int, args: seq<Expr>, fl: FloatLib)
    requires AllInts(args)
    ensures TryFold(Int(a), args, (x, y) => Add(x, y, fl)) == Ok(Int(a + IntSum(args)))
    decreases |args|
  {
    if args != [] {
      assert AllInts(args[1..]);
      FoldAddInts(a + args[0].n.i, args[1..], fl);
    }
  }

  lemma {:induction false} FoldMulInts(a: int, args: seq<Expr>, fl: FloatLib)
    requires AllInts(args)
    ensures TryFold(Int(a), args, (x, y) => Mul(x, y, fl)) == Ok(Int(a * IntProduct(args)))
    decreases |args|
  {
    if args != [] {
      assert AllInts(args[1..]);
      FoldMulInts(a * args[0].n.i, args[1..], fl);
      assert a * args[0].n.i * IntProduct(args[1..]) == a * (args[0].n.i * IntProduct(args[1..]));
    }
  }

  lemma {:induction false} FoldSubInts(a: int, args: seq<Expr>, fl: FloatLib)
    requires AllInts(args)
    ensures TryFold(Int(a), args, (x, y) => Sub(x, y, fl)) == Ok(Int(a - IntSum(args)))
    decreases |args|
  {
    if args != [] {
      assert AllInts(args[1..]);
      FoldSubInts(a - args[0].n.i, args[1..], fl);
    }
  }

  /** `+` over integers is their sum; `(+)` is 0. */
  lemma AddOfInts(args: seq<Expr>, ar: Arith)
    requires AllInts(args)
    ensures ApplyBuiltin(Plus, args, ar) == Ok(NumberLiteral(Int(IntSum(args))))
  {
    FoldAddInts(0, args, ar.fl);
  }

  /** `*` over integers is their product; `(*)` is 1. */
  lemma MulOfInts(args: seq<Expr>, ar: Arith)
    requires AllInts(args)
    ensures ApplyBuiltin(Times, args, ar) == Ok(NumberLiteral(Int(IntProduct(args))))
  {
    FoldMulInts(1, args, ar.fl);
  }

  /** `-` over two or more integers subtracts all the others from the first. */
  lemma SubOfInts(args: seq<Expr>, ar: Arith)
    requires AllInts(args) && |args| >= 2
    ensures ApplyBuiltin(Minus, args, ar) == Ok(NumberLiteral(Int(args[0].n.i - IntSum(args[1..]))))
  {
    assert AllInts(args[1..]);
    FoldSubInts(args[0].n.i, args[1..], ar.fl);
  }

  /** The numbers of all-number arguments, in order. */
  function Nums(args: seq<Expr>): (ns: seq<Number>)
    requires AllNumbers(args)
    ensures |ns| == |args| && forall i :: 0 <= i < |args| ==> ns[i] == args[i].n
  {
    if args == [] then [] else [args[0].n] + Nums(args[1..])
  }

  /** The left fold of `op` over numbers from `acc`: a reference for the folding builtins. */
  function FoldL(acc: Number, ns: seq<Number>, op: (Number, Number) -> Number): Number
    decreases |ns|
  {
    if ns == [] then acc else FoldL(op(acc, ns[0]), ns[1..], op)
  }

  /** Over numbers, the short-circuiting fold is the plain left fold. */
  lemma {:induction false} TryFoldIsFoldL(acc: Number, args: seq<Expr>, op: (Number, Number) -> Number)
    requires AllNumbers(args)
    ensures TryFold(acc, args, op) == Ok(FoldL(acc, Nums(args), op))
    decreases |args|
  {
    if args != [] {
      assert AllNumbers(args[1..]);
      TryFoldIsFoldL(op(acc, args[0].n), args[1..], op);
      assert Nums(args)[1..] == Nums(args[1..]);
    }
  }

  /** `(/ a b ...)` divides the first number by each of the rest in turn. */
  lemma DivFolds(args: seq<Expr>, ar: Arith)
    requires |args| > 0 && AllNumbers(args)
    ensures ApplyBuiltin(Over, args, ar) == Ok(NumberLiteral(FoldL(args[0].n, Nums(args[1..]), ar.div)))
  {
    TryFoldIsFoldL(args[0].n, args[1..], ar.div);
  }

  /** `(- a b ...)` with two or more numbers subtracts each of the rest from the first in turn. */
  lemma SubFolds(args: seq<Expr>, ar: Arith)
    requires |args| >= 2 && AllNumbers(args)
    ensures ApplyBuiltin(Minus, args, ar) == Ok(NumberLiteral(FoldL(args[0].n, Nums(args[1..]), (a, b) => Sub(a, b, ar.fl))))
  {
    TryFoldIsFoldL(args[0].n, args[1..], (a, b) => Sub(a, b, ar.fl));
  }

  /** The older `-` folds from the first number for any count of arguments, one included. */
  lemma EarlySubFolds(args: seq<Expr>, ar: Arith)
    requires |args| > 0 && AllNumbers(args)
    ensures ApplyBuiltin(EarlyMinus, args, ar) == Ok(NumberLiteral(FoldL(args[0].n, Nums(args[1..]), (a, b) => Sub(a, b, ar.fl))))
  {
    TryFoldIsFoldL(args[0].n, args[1..], (a, b) => Sub(a, b, ar.fl));
  }

  /** The older `-` of integers subtracts the rest from the first. */
  lemma EarlySubOfInts(args: seq<Expr>, ar: Arith)
    requires AllInts(args) && |args| >= 1
    ensures ApplyBuiltin(EarlyMinus, args, ar) == Ok(NumberLiteral(Int(args[0].n.i - IntSum(args[1..]))))
  {
    assert AllInts(args[1..]);
    FoldSubInts(args[0].n.i, args[1..], ar.fl);
  }

  /** One Float argument makes the result of `+` a Float: the float tag is contagious. */
  lemma AddFloatContagious(args: seq<Expr>, ar: Arith)
    requires AllNumbers(args)
    ensures ApplyBuiltin(Plus, args, ar).value.NumberLiteral?
    ensures ApplyBuiltin(Plus, args, ar).value.n.Int? <==> AllInts(args)
  {
    FoldIntExactly(Int(0), args, (x, y) => Add(x, y, ar.fl));
  }

  /** Over integers, `=` holds exactly when every argument equals the first. */
  lemma {:induction false} EqualOfInts(args: seq<Expr>, ar: Arith)
    requires AllInts(args)
    ensures ApplyBuiltin(NumEqual, args, ar) ==
            Ok(BooleanLiteral(forall i :: 0 <= i < |args| ==> args[i].n.i == args[0].n.i))
  {
    var r := ApplyBuiltin(NumEqual, args, ar);
    var adjacent := forall i :: 1 <= i < |args| ==> Equals(args[i - 1].n, args[i].n, ar.fl);
    var allSame := forall i :: 0 <= i < |args| ==> args[i].n.i == args[0].n.i;
    assert r.value.b == adjacent;
    if adjacent {
      forall i | 0 <= i < |args| ensures args[i].n.i == args[0].n.i {
        AdjacentChain(args, ar.fl, i);
      }
    }
    if allSame {
      forall i | 1 <= i < |args| ensures Equals(args[i - 1].n, args[i].n, ar.fl) {
        assert args[i - 1].n.i == args[0].n.i;
      }
    }
  }

  lemma {:induction false} AdjacentChain(args: seq<Expr>, fl: FloatLib, k: int)
    requires AllInts(args) && 0 <= k < |args|
    requires forall i :: 1 <= i < |args| ==> Equals(args[i - 1].n, args[i].n, fl)
    ensures args[k].n.i == args[0].n.i
  {
    if k > 0 {
      AdjacentChain(args, fl, k - 1);
      assert Equals(args[k - 1].n, args[k].n, fl);
    }
  }
}
