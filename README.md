# A verified model of a small Scheme interpreter

This project models a small Scheme interpreter written in Rust. Its front end reads a
character stream into tokens and parses the tokens into expression trees. An evaluator then
runs each tree against a mutable stack of name→value frames that is seeded with a builtin
library. The repository holds several snapshots of the same program. Each snapshot has its own
module here:

| snapshot | Rust source | Dafny modules |
|---|---|---|
| final evaluator and builtins | `src/eval.rs`, `src/environment.rs` | `Semantics`, `Evaluator`, `EvalProperties`, `FuelProperties`, `EvalExamples`, `Builtins`, `Env` |
| library crate | `src/lib.rs` | `Numbers`, `Lexer`, `Tokens`, `Parsing`, `Syntax`, `ReadBack`, plus `Release.Early` in `Semantics` |
| older numbers | `src/number.rs` | `Numbers.EarlyAdd` and the lemmas beside it |
| older tokenizer and parser | `src/tokenizer.rs`, `src/parser.rs` | `EarlyTokens`, `EarlyParsing` |
| oldest expression type and stub evaluator | `src/expression.rs`, `src/main.rs` | `EarlyExpression` |

## How the model is built

**Numbers.** A `Number` is `Int(int)` or `Float(F64)`, and `F64` is an opaque type. Every f64
operation the source uses is a field of a `FloatLib` record that the caller passes in:
- the `as f64` conversion;
- `+`, `-` and `*`;
- `==`;
- `str::parse::<f64>`;
- the `{:+.4e}` rendering.

The evaluator also uses `Neg`, `Div`, `>` and `<` on `Number`, which neither src/number.rs nor src/lib.rs defines.
They come in the `Arith` record. The only facts about them are the two the evaluator's tests
fix, `(- 42)` and `(/ 10 5)`, stated as `Numbers.AgreesWithTests`. The model parses `i64` text
concretely: an optional sign, at least one ASCII digit, and a value within the `i64` range.

**Environment.** `Env.Environment` is a class whose `stack` field is a sequence of
`map<string, V>` frames. `Push`, `Pop`, `Insert` and `Lookup` update that field or read it.
Each is proved against a function on stacks: `Pushed`, `Popped`, `Inserted` and `Find`.

**Evaluator.** The final `eval` and the older `eval` module of the library crate are one
evaluator. A `Release` parameter selects between them:
- the older one (`Early`) has no `cond` form;
- its `-` is the `EarlyMinus` builtin, which has no one-argument case;
- its root frame binds only `+`, `-` and `*`.

User procedures can recurse without end, so evaluation takes a `fuel` budget and yields
`OutOfFuel` when the budget is spent. The meaning of `eval` is a family of pure functions in
`Semantics` that map an expression and a stack to an outcome and the new stack. Module
`FuelProperties` shows that fuel is only a bound: a result other than `OutOfFuel` stays the
same, new stack included, with any larger fuel.

The imperative `Evaluator.Eval` and its helper methods thread one `Environment` through every
call, as the source does:
- `define` inserts into the top frame;
- a user-procedure call pushes a frame, binds the parameters, runs the body and pops.

Each method is proved to compute its function, new stack included. The frame discipline is a
postcondition of every function in `Semantics`: the stack keeps its height, and only the top
frame may differ.

The builtins are the closed datatype `Builtin`, dispatched by `Builtins.ApplyBuiltin`. Errors
are the closed datatype `Error`. Each variant's comment gives the message text it stands for.

**Expressions.** The final evaluator's `Expression` uses a `BooleanLiteral` variant that neither
src/expression.rs nor the library's `expression` module (src/lib.rs:223-254) declares. `Syntax.Expr` is the library's `Expression` with `BooleanLiteral(bool)`
added. `Syntax.IsLibExpression` marks the trees the library's own type can hold, and `Display`
is defined on those.

**Front end.** The two tokenizers have character-for-character the same scanning loop. Both
use the class `Lexer.Scanner`, whose methods advance the remaining input one character at a
time. They differ only in how a bare run becomes a token:
- `Tokens.Classify` uses `Number::from_str`;
- `EarlyTokens.Classify` tries `i64`, then `f64`, then falls back to an identifier.

Rust's `char::is_whitespace` is modelled concretely as the Unicode White_Space code points. Both
parsers are classes whose `rest` field is the unconsumed token stream. Their `Single` methods
are proved against the recursive functions `ParseOne` and `ParseItems`.

Where the specification of the program and its code differ, the model follows the code:
- a `cond` clause that is a list of the wrong length is "Expecting pair as cond clause";
- a clause that is not a list at all is "Invalid syntax";
- an empty combination has its own message, "Invalid syntax ()";
- the comparison builtins check that every argument is a number even when there are fewer
  than two arguments;
- in the library crate's older `eval` module, `(- 5)` is 5.

## Model

| member | source | states |
|---|---|---|
| Numbers.ApplyBinaryOp | src/lib.rs:425-442 | the result is Int exactly when both operands are Int, and is then the integer operator's value; otherwise it is the float operator applied after promoting the Int operand |
| Numbers.Add | src/lib.rs:444-449 | Int + Int is the exact sum; any Float operand gives a Float, the f64 sum of both operands after promotion |
| Numbers.Sub | src/lib.rs:451-456 | the same tag rule for subtraction |
| Numbers.Mul | src/lib.rs:458-463 | the same tag rule for multiplication |
| Numbers.Equals | src/lib.rs:465-474 | two Ints compare exactly; any other pair compares with f64 `==` after the Int is promoted |
| Numbers.ParseI64 | src/lib.rs:405 | an accepted text starts with a digit or a sign, and its value fits in an `i64` |
| Numbers.ParseI64Signed | src/lib.rs:405 | a run of ASCII digits, bare, after `+` or after `-`, is read as its signed decimal value exactly when that value fits in an `i64`, and is refused otherwise |
| Numbers.ParseI64Rejects | src/lib.rs:405 | a non-empty text with any character other than a digit after the optional sign, or a lone sign, is refused |
| Numbers.ParseI64LeadingZero | src/lib.rs:405 | leading zeros do not change what is read |
| Numbers.ParseI64Decimal | src/number.rs:40-47 | every `i64` is read back from its decimal display |
| Numbers.FromStr | src/lib.rs:404-412 | text that parses as `i64` is always an Int; a Float arises only when `i64` parsing fails and `f64` parsing succeeds; the parse fails exactly when both fail |
| Numbers.FromStrNumberText | src/lib.rs:404-422 | `from_str` of an Int's display is that Int |
| Numbers.EarlyAdd | src/number.rs:49-60 | the older addition: Int + Int is Int of the sum, and a mixed pair is a Float with the Int promoted, in either order |
| Numbers.EarlyAddAgrees | src/number.rs:49-60 | the older addition and the one routed through `apply_binary_op` agree on all inputs |
| Numbers.EqualsSymmetric | src/number.rs:62-71 | equality is symmetric whenever f64 `==` is |
| Text.NatDigitsValue | src/number.rs:43 | reading back the decimal digits of a natural number gives the number |
| Text.JoinSpacesAround | src/lib.rs:243-244 | in a space-joined list, each part appears verbatim between a separator (or the start) and a separator (or the end) |
| Env.FindInnermost | src/environment.rs:24-26 | lookup finds nothing exactly when no frame binds the key; otherwise it returns the binding of the innermost frame that has the key |
| Env.PushKeepsLookups | src/environment.rs:15-17 | after a push, every lookup gives what it gave before |
| Env.FindThroughTop | src/environment.rs:24-26 | a top frame answers for its own keys and defers to the frames below for every other key |
| Env.PopUndoesPush | src/environment.rs:15-20 | pop after push restores the stack |
| Env.InsertThenFind | src/environment.rs:21-23 | after `insert(k, v)`, `k` looks up `v` and every other key looks up what it did before |
| Env.Environment.constructor | src/environment.rs:12-14 | a new environment has no frame |
| Env.Environment.Push | src/environment.rs:15-17 | puts one empty frame on top |
| Env.Environment.Pop | src/environment.rs:18-20 | removes the top frame, and leaves an empty stack empty |
| Env.Environment.Insert | src/environment.rs:21-23 | writes into the top frame only, overwriting the key there |
| Env.Environment.Lookup | src/environment.rs:24-26 | the loop over frames from the innermost outwards returns the stack lookup |
| Builtins.ExtractNumbers | src/environment.rs:84-91 | succeeds exactly when every argument is a number, then gives their numbers in order; otherwise "Expecting number" |
| Builtins.TryFold | src/environment.rs:29-37 | the fold succeeds exactly when every argument is a number, and otherwise fails with "Expecting number" |
| Builtins.BuiltinAdd | src/environment.rs:29-37 | `+` succeeds with a number exactly when all arguments are numbers; otherwise "Expecting number" |
| Builtins.BuiltinMul | src/environment.rs:39-47 | `*` succeeds with a number exactly when all arguments are numbers; otherwise "Expecting number" |
| Builtins.BuiltinSub | src/environment.rs:49-66 | `-`: no argument is exactly the count error "(-)"; success exactly when there are arguments and all are numbers; one argument gives its negation |
| Builtins.BuiltinDiv | src/environment.rs:68-82 | `/`: no argument is exactly the count error "(/)"; success exactly when there are arguments and all are numbers; one argument gives itself |
| Builtins.EarlySub | src/lib.rs:126-140 | the older `-`: the same error cases, but one argument gives itself |
| Builtins.Compare | src/environment.rs:93-130 | `>`, `<`, `=`: success exactly when all arguments are numbers, checked first; the boolean is true exactly when every adjacent pair is related (vacuously for fewer than two) |
| Builtins.FoldIntExactly | src/environment.rs:29-37 | a fold whose operator keeps the Int tag exactly on Int pairs gives an Int exactly when its start and all arguments are Int |
| Builtins.FoldAddInts | src/environment.rs:29-37 | over integers, the `+` fold from `a` is `a` plus their sum |
| Builtins.FoldMulInts | src/environment.rs:39-47 | over integers, the `*` fold from `a` is `a` times their product |
| Builtins.FoldSubInts | src/environment.rs:59-65 | over integers, the `-` fold from `a` is `a` minus their sum |
| Builtins.AddOfInts | src/environment.rs:29-37 | `+` of integers is their sum, and `(+)` is 0 |
| Builtins.MulOfInts | src/environment.rs:39-47 | `*` of integers is their product, and `(*)` is 1 |
| Builtins.SubOfInts | src/environment.rs:49-66 | `-` of two or more integers subtracts the rest from the first |
| Builtins.TryFoldIsFoldL | src/environment.rs:29-37 | over arguments that are all numbers, the short-circuiting `try_fold` gives the plain left fold of their numbers |
| Builtins.SubFolds | src/environment.rs:59-65 | `-` of two or more numbers is the left fold of `Sub` over the rest, from the first |
| Builtins.DivFolds | src/environment.rs:75-81 | `/` of one or more numbers is the left fold of `Div` over the rest, from the first (the first itself when alone) |
| Builtins.EarlySubFolds | src/lib.rs:133-139 | the older `-` of one or more numbers is the left fold of `Sub` over the rest, from the first, with no unary case |
| Builtins.EarlySubOfInts | src/lib.rs:133-139 | the older `-` of integers subtracts the sum of the rest from the first |
| Builtins.AddFloatContagious | src/environment.rs:29-37 | `+` of numbers is an Int exactly when every argument is an Int |
| Builtins.EqualOfInts | src/environment.rs:119-130 | over integers, `=` is true exactly when all arguments equal the first |
| Builtins.ApplyBuiltin | src/eval.rs:69-75 | calling a builtin value never runs out of fuel; it succeeds exactly when every argument is a number and, for `-` and `/`, there is at least one; its only errors are "Expecting number" and the count error; the comparisons `>`, `<`, `=` give a boolean and the arithmetic builtins a number. Each tag stands for the procedure `create_root_environment` (src/environment.rs:132-169) binds to its name |
| Semantics.EvalSpec | src/eval.rs:4-99 | the dispatch of `eval`; whatever the outcome, the stack keeps its height and only its top frame may change |
| Semantics.DefineSpec | src/eval.rs:14-43 | `define` leaves the frames below the top untouched |
| Semantics.CondSpec | src/eval.rs:44-64 | `cond` leaves the frames below the top untouched |
| Semantics.ArgsSpec | src/eval.rs:71-79 | the arguments, evaluated left to right, give one value each and leave the frames below the top untouched |
| Semantics.ApplySpec | src/eval.rs:67-92 | an application, push and pop included, leaves the stack height and the frames below the top unchanged |
| Semantics.Names | src/eval.rs:24-31 | the names of a list of identifiers, in order |
| Semantics.Bind | src/eval.rs:84-86 | the call frame binds exactly the parameter names |
| Semantics.RootFrame | src/environment.rs:132-169 | the root frame binds exactly `+ - * / #t #f > < =` |
| Semantics.EarlyRootFrame | src/lib.rs:142-161 | the older root frame binds exactly `+ - *` |
| Evaluator.Eval | src/eval.rs:4-99 | the recursive evaluator over the mutable environment returns `EvalSpec`'s outcome and leaves `EvalSpec`'s stack |
| Evaluator.EvalDefine | src/eval.rs:14-43 | computes `DefineSpec`, new stack included |
| Evaluator.EvalCond | src/eval.rs:44-64 | the loop over the clauses computes `CondSpec`, new stack included |
| Evaluator.EvalArgs | src/eval.rs:71-79 | the loop over the arguments computes `ArgsSpec`, new stack included |
| Evaluator.PushBindings | src/eval.rs:83-86 | the new stack is the old one with one frame on top binding each parameter to its argument |
| Evaluator.EvalApply | src/eval.rs:67-92 | push, the binding loop, the body and pop together compute `ApplySpec` |
| Evaluator.CreateRootEnvironment | src/environment.rs:132-169 | a fresh environment holding exactly the root frame |
| Evaluator.CreateEarlyRootEnvironment | src/lib.rs:142-161 | a fresh environment holding exactly the older root frame |
| EvalProperties.IdentifierLookup | src/eval.rs:6-9 | an identifier is "Undefined symbol" exactly when no frame binds it; otherwise its value is the innermost frame's binding; the stack is unchanged |
| EvalProperties.EmptyAndSelfEvaluating | src/eval.rs:93-97 | `()` is "Invalid syntax ()"; every expression other than an identifier or combination evaluates to itself |
| EvalProperties.DefineSyntaxErrors | src/eval.rs:14-42 | a `define` with other than two parts, or whose name part is neither an identifier nor a non-empty list of identifiers, is "Invalid syntax" and changes nothing |
| EvalProperties.DefineVariable | src/eval.rs:20-43 | `(define x e)` evaluates `e` first; on success it binds `x` on top, keeps every other lookup and yields Void; on failure it returns that failure without binding |
| EvalProperties.DefineProcedure | src/eval.rs:23-43 | `(define (f p...) body)` binds `f` to the procedure without evaluating the body, keeps every other lookup and yields Void |
| EvalProperties.CondClauseErrors | src/eval.rs:45-61 | a non-list clause is "Invalid syntax"; a list of other than two is "Expecting pair as cond clause" |
| EvalProperties.CondFirstMatch | src/eval.rs:44-58 | the first clause whose test is not `#f` gives its consequent's evaluation, whatever the later clauses are |
| EvalProperties.CondNoMatch | src/eval.rs:44-64 | when every test gives `#f`, `cond` yields Void |
| EvalProperties.CondForm | src/eval.rs:44-45 | in the final evaluator, `(cond ...)` evaluates its clauses from the first |
| EvalProperties.EarlyHasNoCond | src/lib.rs:36-72 | the older evaluator has no `cond`: where nothing binds it, `(cond ...)` is "Undefined symbol 'cond'" |
| EvalProperties.NonProcedureOperator | src/eval.rs:67-91 | an operator whose value is not a procedure is an error naming that value, and no argument is evaluated |
| EvalProperties.ProcedureCall | src/eval.rs:76-90 | operator, then arguments; an argument failure comes before the arity check; a count mismatch pushes no frame; otherwise the body runs on the caller's stack plus one parameter frame, and the caller's stack is restored whatever the body's outcome |
| EvalProperties.BuiltinCall | src/eval.rs:69-75 | operator, then every argument, then the builtin on their values |
| EvalProperties.DynamicScope | src/eval.rs:76-89 | a free name in a procedure body is looked up in the caller's stack at call time |
| FuelProperties.EvalMonotone | src/eval.rs:4-99 | an evaluation that finishes within some fuel gives the same outcome and the same stack with any larger fuel |
| FuelProperties.DefineMonotone | src/eval.rs:14-43 | the same for a `define` form |
| FuelProperties.CondMonotone | src/eval.rs:44-64 | the same for the `cond` clauses from any index on |
| FuelProperties.ArgsMonotone | src/eval.rs:71-79 | the same for the evaluation of the arguments |
| FuelProperties.ApplyMonotone | src/eval.rs:67-92 | the same for an application, procedure body included |
| EvalExamples.IntegerOperators | src/environment.rs:29-66 | `+`, `-` and `*` of two integers are their sum, difference and product |
| EvalExamples.Literal | src/eval.rs:97 | an integer literal evaluates to itself in the root environment, at any positive fuel |
| EvalExamples.Literals | src/eval.rs:184-192 | with any positive fuel, `#t` and `#f` evaluate to the booleans, and `486` to itself |
| EvalExamples.SimpleArithmetic | src/eval.rs:128-146 | with fuel 2 or more, `(+ 137 349)` is 486, `(- 1000 334)` is 666 and `(* 5 99)` is 495 |
| EvalExamples.NegationAndDivision | src/eval.rs:138-151 | with fuel 2 or more, `(- 42)` is -42 and `(/ 10 5)` is 2 for any negation and division that the tests fix |
| EvalExamples.ComplexArithmetic | src/eval.rs:153-156 | with fuel 5 or more, the nested arithmetic test is 57 |
| EvalExamples.SimpleDefine | src/eval.rs:158-161 | with fuel 2 or more, `(define size 2) size` gives 2 |
| EvalExamples.SimpleProcedure | src/eval.rs:171-174 | with fuel 3 or more, `(define (square x) (* x x)) (square 21)` gives 441 |
| EvalExamples.MoreProcedures | src/eval.rs:176-182 | with fuel 6 or more, the `square`, `sum-of-squares`, `f` program gives 136 |
| EvalExamples.EarlyUnaryMinus | src/lib.rs:126-140 | with fuel 2 or more, in the older evaluator `(- 5)` is 5, whatever negation is |
| Lexer.LeadingSpace | src/lib.rs:294-301 | the whitespace skipped is all whitespace and stops at the first other character |
| Lexer.ScanQuoted | src/lib.rs:306-315 | a string body holds no `"` and runs to the next `"`, which is dropped, or to the end of input |
| Lexer.ScanBare | src/lib.rs:316-328 | a bare run is non-empty, holds no whitespace or parenthesis, and stops at one or at the end |
| Lexer.ScanLexeme | src/lib.rs:303-336 | `(` and `)` are one-character lexemes, `"` starts a string, anything else a bare run; what was consumed spells the lexeme, and at least one character is consumed |
| Lexer.Scan | src/lib.rs:293-337 | nothing is scanned exactly when only whitespace is left; otherwise the whitespace is skipped and one lexeme scanned |
| Lexer.Scanner.constructor | src/lib.rs:340-344 | the scanner starts on the whole input |
| Lexer.Scanner.Next | src/lib.rs:293-337 | the character loop computes `Scan` |
| Lexer.Scanner.SkipWhitespace | src/lib.rs:294-301 | drops exactly the leading whitespace |
| Lexer.Scanner.ReadQuoted | src/lib.rs:307-313 | the loop computes `ScanQuoted` |
| Lexer.Scanner.ReadBare | src/lib.rs:317-328 | the loop computes `ScanBare` |
| Tokens.Classify | src/lib.rs:303-333 | parentheses and strings map one to one; a bare run is a number literal exactly when `from_str` accepts it, holding its value, and otherwise an identifier holding the text |
| Tokens.NextToken | src/lib.rs:293-337 | no token exactly when only whitespace is left; a token always consumes input |
| Tokens.Tokenize | src/lib.rs:340-344 | no tokens exactly for all-whitespace input, and never more tokens than characters |
| Tokens.Tokenizer.constructor | src/lib.rs:340-344 | the tokenizer starts on the whole input |
| Tokens.Tokenizer.Next | src/lib.rs:293-337 | computes `NextToken` |
| Tokens.Tokenizer.Collect | src/lib.rs:354 | collecting the tokenizer gives `Tokenize` of its input |
| Tokens.TokenizeSkipsSpace | src/lib.rs:294-301 | leading whitespace changes no token |
| Tokens.TokenizeParen | src/lib.rs:304-305 | a parenthesis is a token of its own, whatever follows |
| Tokens.TokenizeBare | src/lib.rs:316-333 | a maximal bare run is one token, classified by `from_str` |
| Tokens.TokenizeRender | src/lib.rs:293-337 | text built from parentheses, spaces and bare words with no two words adjacent tokenizes to the tokens those pieces stand for |
| Tokens.BasicsTokens | src/lib.rs:351-371 | the `basics` input tokenizes to exactly its eleven tokens: the parentheses, the identifiers `quote` and `testing`, Int 1, and the Floats the host reads for `2.0` and `-3.14e159` |
| EarlyTokens.Classify | src/tokenizer.rs:70-76 | a bare run is an `IntLiteral` exactly when it reads as `i64`, a `FloatLiteral` exactly when it does not but reads as `f64`, and otherwise an identifier |
| EarlyTokens.NextToken | src/tokenizer.rs:34-80 | no token exactly when only whitespace is left; a token always consumes input |
| EarlyTokens.Tokenize | src/tokenizer.rs:83-87 | no tokens exactly for all-whitespace input, and never more tokens than characters |
| EarlyTokens.Tokenizer.constructor | src/tokenizer.rs:83-87 | the tokenizer starts on the whole input |
| EarlyTokens.Tokenizer.Next | src/tokenizer.rs:34-80 | computes `NextToken` |
| EarlyTokens.Tokenizer.Collect | src/tokenizer.rs:96 | collecting the tokenizer gives `Tokenize` of its input |
| EarlyTokens.ClassifyAgrees | src/tokenizer.rs:70-76 | the library's classification is the older one with the two number kinds merged |
| EarlyTokens.TokenizeAgrees | src/tokenizer.rs:34-80 | on every input, the library's tokenizer gives the older tokenizer's tokens with the number kinds merged |
| EarlyTokens.BasicsTokens | src/tokenizer.rs:93-110 | this tokenizer's `basics` input tokenizes to exactly its eleven tokens, with `IntLiteral(1)` and two `FloatLiteral`s |
| Parsing.ParseOne | src/lib.rs:182-209 | `single` reports no expression exactly on an empty stream; otherwise it consumes a non-empty prefix |
| Parsing.ParseItems | src/lib.rs:185-200 | a successful combination consumes its closing `)` |
| Parsing.Transpose | src/lib.rs:215-217 | `next` is `None` exactly at the end of the stream, and otherwise carries `single`'s expression or error |
| Parsing.Parser.constructor | src/lib.rs:176-180 | the parser starts on the whole token stream |
| Parsing.Parser.Single | src/lib.rs:182-209 | the loop with its recursive calls computes `ParseOne`, tokens consumed included |
| Parsing.Parser.Next | src/lib.rs:215-217 | returns the transposed result of `single` and consumes what it consumes |
| Parsing.ParseSpelling | src/lib.rs:182-209 | the tokens of an expression parse back to that expression, and what followed is left |
| Parsing.ParseSpellingAll | src/lib.rs:186-200 | inside a combination, the tokens of several expressions add those expressions in order |
| Parsing.ParsedFromTokens | src/lib.rs:182-209 | conversely, every parsed expression is spelled by exactly the tokens consumed |
| Parsing.ItemsFromTokens | src/lib.rs:186-200 | conversely for a combination's items, up to its `)` |
| Parsing.StrayClose | src/lib.rs:202 | a `)` where an expression should start is "Unexpected ')'" and consumes only itself |
| Parsing.UnclosedCombination | src/lib.rs:193 | a `(` whose items run to the end of the tokens is "Unexpected EOF" |
| Parsing.NestedError | src/lib.rs:194 | an error inside a combination ends the combination with that error |
| Syntax.DisplayElement | src/lib.rs:239-254 | a combination displays as each element's display, in order, separated by single spaces inside parentheses; `()` for none |
| ReadBack.DisplayReadsBack | src/lib.rs:239-254 | tokenizing and parsing the display of an expression of identifiers, `i64` integers and combinations gives that expression and consumes every token |
| EarlyParsing.ParseOne | src/parser.rs:41-74 | `single` is `None` exactly on an empty stream; otherwise it consumes a non-empty prefix |
| EarlyParsing.ParseItems | src/parser.rs:45-63 | always yields a result; a successful one is an `Expr` whose `)` was consumed |
| EarlyParsing.NoW00t | src/parser.rs:54-59 | the "w00t" error never comes out of `single` |
| EarlyParsing.NoW00tItems | src/parser.rs:54-59 | nor out of the item loop |
| EarlyParsing.Parser.constructor | src/parser.rs:35-39 | the parser starts on the whole token stream |
| EarlyParsing.Parser.Single | src/parser.rs:41-74 | the loop with its recursive calls computes `ParseOne`, tokens consumed included |
| EarlyParsing.Parser.Next | src/parser.rs:80-82 | `next` returns what `single` returns: `None` exactly when no token is left, and otherwise the next expression or error with its tokens consumed |
| EarlyParsing.ParseAgrees | src/parser.rs:41-74 | on the lifted tokens, the library's parser gives the lifted result of the older parser and leaves the lifted rest |
| EarlyParsing.ItemsAgree | src/parser.rs:45-63 | the same for the item loop |
| EarlyParsing.DisplayElement | src/parser.rs:14-27 | an `Expr` displays as its items' displays, in order, separated by single spaces inside parentheses; `()` for none |
| EarlyExpression.DisplayElement | src/expression.rs:13-27 | a combination displays as its elements' displays, in order, separated by single spaces inside parentheses; `()` for none |
| EarlyExpression.SumArgs | src/main.rs:15-18 | the `try_fold` succeeds exactly when every argument is an integer literal, and otherwise fails with "Expecting integer" |
| EarlyExpression.StubEval | src/main.rs:6-31 | the stub `eval` succeeds exactly on a non-identifier, non-combination expression (giving it back) and on `(+ ...)` over integer literals (giving an integer literal); `EarlyExpression.StubErrors` and `EarlyExpression.PlusCombination` state each case |
| EarlyExpression.SumArgsSum | src/main.rs:15-18 | the `try_fold` adds the running sum to the literals when all are integer literals, and is "Expecting integer" otherwise |
| EarlyExpression.PlusCombination | src/main.rs:14-18 | `(+ a1 ... an)` is the sum of the integer literals, 0 for none, and "Expecting integer" when any argument (a combination included) is not one |
| EarlyExpression.StubErrors | src/main.rs:6-31 | an identifier is "Not implemented"; `()` is "Invalid syntax ()"; another head identifier is "Undefined operand"; a non-identifier head is "Not implemented: Empty combination"; everything else evaluates to itself |
| EarlyExpression.MainInput | src/main.rs:34 | the binary's input `(+ 1 2 3 4 5)` evaluates to 15 |

## Left out

- Numbers.Add: Int results are unbounded integers. `i64` overflow, which panics in debug builds and wraps in release builds, is not modelled.
- Numbers.Sub: the same `i64` overflow omission.
- Numbers.Mul: the same `i64` overflow omission.
- Numbers.EarlyAdd: the same `i64` overflow omission.
- EarlyExpression.SumArgs: the stub's running sum is an `i64` starting at `0i64`, and the model adds unbounded integers. A sum that leaves the `i64` range, which panics in debug builds and wraps in release builds, is not modelled.
- EarlyExpression.SumArgsSum: the same `i64` overflow omission as `EarlyExpression.SumArgs`.
- EarlyExpression.PlusCombination: the same `i64` overflow omission as `EarlyExpression.SumArgs`.
- Builtins.BuiltinSub: the one-argument result is `Neg` of the argument. `Neg` on `Number` is defined in neither src/number.rs nor src/lib.rs, so it stays abstract. Only the test `(- 42)` pins it (`Numbers.AgreesWithTests`).
- Builtins.BuiltinDiv: `Div` on `Number` is defined in neither src/number.rs nor src/lib.rs, so it stays abstract, pinned only by the test `(/ 10 5)`. Division by zero is therefore not modelled either.
- Builtins.Compare: `>` and `<` are `PartialOrd` on `Number`, which neither src/number.rs nor src/lib.rs defines. They are parameters with no properties.
- f64 values and arithmetic, `str::parse::<f64>` and the `{:+.4e}` rendering are host operations and are taken as parameters. The float-valued evaluator test `more_defines` is therefore not modelled.
- Tokens.BasicsTokens: the host's f64 grammar is not modelled, so the lemma takes as premises that `str::parse::<f64>` accepts `2.0` and `-3.14e159` and refuses `quote` and `testing`. That `2.0` is the float 2 and `-3.14e159` the float -3.14e159 is not stated.
- EarlyTokens.BasicsTokens: the same f64 premises as `Tokens.BasicsTokens`.
- In the `basics` test, `(2.0)` equals `Number::from(2)` through `Number`'s `PartialEq`. That depends on the host's f64 equality and is not stated; `Numbers.Equals` gives the promotion rule it relies on.
- Semantics.EvalSpec: evaluation is bounded by fuel. Where the program would exhaust the host stack on unbounded recursion, the model yields `OutOfFuel`.
- Env.Environment.Insert: requires at least one frame. The source's `unwrap` panics on an empty stack.
- Syntax.DisplayElement: defined only for expressions without `BooleanLiteral`. The library's `Expression` has no such variant, so its `Display` says nothing about booleans. The "Attempt to apply non-procedure" message is the `NonProcedure` error carrying the operand, not the formatted text.
- ReadBack.DisplayReadsBack: covers identifiers that are bare words `from_str` rejects, `i64` integers and combinations of these. String literals with spaces or quotes, floats, procedures and Void do not read back, and are excluded.
- The `Display` of tokens, in both tokenizers, is used by no modelled operation and is left out.
- `main()` of the binary (`src/main.rs:33-53`) only prints, and is left out. Its input string is modelled by `EarlyExpression.MainInput`.
- `Rc<dyn Fn>` builtin values are modelled as the tags of the datatype `Builtin`, dispatched by `Builtins.ApplyBuiltin`. Reference counting is not modelled.
- Frames are `map<string, V>`. `HashMap` hashing and iteration order do not matter to any modelled operation.
- `Peekable` iterators are modelled by the remaining input (`rest`). A lazy, possibly infinite character or token source is not modelled; the parsers and tokenizers work on finite sequences.
