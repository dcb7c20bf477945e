# parsec and the s-expression language, in Dafny

This project models two Rust crates and proves what their code promises.

**parsec** is a small parser-combinator library. A `Context` is an immutable
character input plus a read offset. A parser's public `parse` runs its
`parse_raw` inside a transaction: the offset is put back when the parse fails.
The library has leaf parsers (`any_char`, `char`, `string`, `number`,
`identifier`, `bool`, `eos`, `just`, `fail`, ...) and adapters that combine
them (`map`, `and_then`, `flat_map`, `pair`, `use_left`, `use_right`, `between`,
`or`, `some`, `many`, `many_till`, `filter`, `split`, `label`, `debug`, and
`Any`, the type-erased box).

**s-expression** is a toy Lisp built on parsec. Its parts are:
- a grammar for atoms, `(op x y)`, `(if p t e)` and `(let (x e) ... body)`;
- an evaluator with lazy, dynamically scoped `let` bindings;
- three evaluation errors;
- an entry point `run` that parses and then evaluates.

How the model is built:
- **Parser descriptors.** A parser is a value of the datatype
  `ParsecSemantics.Parser<U>`, with one constructor per Rust parser struct.
  Builder methods become the constructors themselves.
- **Outputs.** Every output is one `Value<U>`: unit, char, text, number, flag,
  tuple, list, or a grammar value of type `U`.
- **Reference semantics.** The ghost functions `RawRun` (what `parse_raw` does)
  and `Run` (what `parse` does, that is the transaction around `RawRun`) return
  a `Step(reply, pos)`. The reply is `Success(v)`, `Failure(error)` or
  `Diverged`.
- **Imperative engine.** The context is a class, `ParsecContext.Context`, with
  `input` and `pos`. The methods in `ParsecEngine` (`Parse`, `ParseRaw`, one
  method per adapter, and the loops of `some` (which `many` and `split`
  reuse), `many_till` and `string`'s `for` over its pattern) change `pos` step by step. Each is proved equal to the
  reference semantics.
- **The s-expression grammar.** The grammar is written with the same
  descriptors. A recursive call of `exp()` inside a `flat_map` closure is a
  grammar-rule reference `Ref`. A `Ref` spends one unit of fuel, and so does
  every `flat_map` continuation.
- **The evaluator.** It is a fuel-bounded recursive function. Fuel is spent at
  every variable lookup: a variable evaluates the expression bound to it in the
  environment where it is used.

Non-termination appears as `Diverged` (parser) or `OutOfFuel` (evaluator).
There are two sources of it: a repetition whose parent succeeds without
consuming anything, and running out of fuel.

## Model

| member | source | states |
|---|---|---|
| Numerals.DigitChar | parsec/src/result.rs:26 | the character written for a decimal digit is a digit with that value |
| Numerals.Decimal | parsec/src/result.rs:26 | the decimal text of a natural number is non-empty, all digits, and has no leading zero |
| Numerals.DecimalRoundTrip | parsec/src/result.rs:26 | reading back the decimal text of n gives n |
| Numerals.DecimalInjective | parsec/src/result.rs:26 | distinct numbers have distinct decimal texts |
| Numerals.IntDecimal | s-expression/src/result.rs:28 | an integer's text is non-empty, starts with '-' exactly when the integer is negative, and the digits after the sign read back as the integer's magnitude, with no leading zero |
| Numerals.IntDecimalReadBack | s-expression/src/result.rs:28 | `str::parse::<i64>` reads back the text of every i64 as that integer |
| Numerals.IntDecimalInjective | s-expression/src/result.rs:28 | distinct integers display differently |
| Numerals.ParseI64 | parsec/src/consumers.rs:33 | on digit text, it succeeds exactly when the text is non-empty and its value fits in i64, and then returns that value; any success lies in the i64 range |
| ParsecResult.Eos | parsec/src/result.rs:19-21 | the end-of-stream error has the given position and the message "end of stream" |
| ParsecResult.RenderLayout | parsec/src/result.rs:24-28 | an error renders as '[' + decimal position + "] " + message, piece by piece |
| ParsecResult.RenderInjective | parsec/src/result.rs:24-28 | rendering is injective: equal texts come from equal errors |
| ParsecContext.Context.constructor | parsec/src/context.rs:12-14 | a new context holds the input with offset 0 |
| ParsecContext.Context.Next | parsec/src/context.rs:24-31 | with input left, it returns the character at the offset and advances by exactly 1; at the end, it returns "end of stream" at the unchanged offset |
| ParsecContext.Context.ThrowParserErr | parsec/src/context.rs:33-35 | builds an error carrying the current offset and the message; it changes nothing |
| ParsecContext.Context.Clone | parsec/src/context.rs:41 | the snapshot is a fresh context with the same input and offset, so it is a valid context |
| ParsecContext.Context.Restore | parsec/src/context.rs:43-45 | a rollback puts back the snapshot's offset |
| ParsecSemantics.Run | parsec/src/parser.rs:8-10 | a parse never moves the offset backwards or past the input; a failed parse is back at its start offset, with an error position in the input |
| ParsecSemantics.MatchLiteral | parsec/src/consumers.rs:116-127 | the literal-matching loop ends inside the input |
| ParsecEngine.ParseBy | parsec/src/context.rs:20-22 | parsing a context yields the reply and final offset of the parser's transactional run |
| ParsecEngine.Parse | parsec/src/parser.rs:8-10 | `parse` changes the context exactly as the reference `Run` does: its `parse_raw` inside a transaction |
| ParsecEngine.ParseRaw | parsec/src/adapters.rs:19-21 | every `parse_raw`, dispatched on the descriptor, matches the reference `RawRun` |
| ParsecEngine.ParseLeafRaw | parsec/src/consumers.rs:96-155 | the `parse_raw` of the leaf parsers, `Any`, `Debug` and a grammar-rule call matches the reference `RawRun` |
| ParsecEngine.ParseSequenceRaw | parsec/src/adapters.rs:19-157 | the `parse_raw` of the adapters that run parsers one after the other matches the reference `RawRun` |
| ParsecEngine.ParseChoiceRaw | parsec/src/adapters.rs:174-327 | the `parse_raw` of the adapters that choose, repeat, check or relabel matches the reference `RawRun` |
| ParsecEngine.ParseAny | parsec/src/any.rs:31-33 | `Any` delegates to the wrapped parser's transactional `parse` |
| ParsecEngine.ParseDebug | parsec/src/adapters.rs:344-348 | `debug` returns the parent's result and offset unchanged |
| ParsecEngine.ParseAnyChar | parsec/src/consumers.rs:96-98 | `any_char` reads through `next` as the reference describes |
| ParsecEngine.ParseStr | parsec/src/consumers.rs:116-127 | the `for` loop over the literal's characters agrees with the reference, including the error at the start offset |
| ParsecEngine.ParseEos | parsec/src/consumers.rs:149-155 | `eos` reads through `next` as the reference describes |
| ParsecEngine.ParseMap | parsec/src/adapters.rs:19-21 | the Map adapter matches its reference |
| ParsecEngine.ParseAndThen | parsec/src/adapters.rs:39-43 | the AndThen adapter matches its reference |
| ParsecEngine.ParseFlatMap | parsec/src/adapters.rs:61-65 | the FlatMap adapter matches its reference |
| ParsecEngine.ParsePair | parsec/src/adapters.rs:82-86 | the Pair adapter matches its reference |
| ParsecEngine.ParseUseLeft | parsec/src/adapters.rs:103-109 | the UseLeft adapter matches its reference |
| ParsecEngine.ParseUseRight | parsec/src/adapters.rs:126-132 | the UseRight adapter matches its reference |
| ParsecEngine.ParseBetween | parsec/src/adapters.rs:151-157 | the Between adapter matches its reference |
| ParsecEngine.ParseOr | parsec/src/adapters.rs:174-185 | the Or adapter matches its reference |
| ParsecEngine.ParseSome | parsec/src/adapters.rs:200-207 | the `some` loop that pushes into a vector matches its reference |
| ParsecEngine.ParseMany | parsec/src/adapters.rs:222-228 | the Many adapter matches its reference |
| ParsecEngine.ParseManyTill | parsec/src/adapters.rs:245-252 | the `many_till` loop matches its reference |
| ParsecEngine.ParseFilter | parsec/src/adapters.rs:269-277 | the Filter adapter matches its reference |
| ParsecEngine.ParseSplit | parsec/src/adapters.rs:294-304 | the Split adapter, first element then the separated rest, matches its reference |
| ParsecEngine.ParseSplitRest | parsec/src/adapters.rs:296-302 | the separated rest of Split, with the first element put in front, matches its reference |
| ParsecEngine.ParseLabel | parsec/src/adapters.rs:322-327 | the Label adapter matches its reference |
| ParsecEngine.ParseRef | s-expression/src/parser.rs:35-37 | a grammar-rule call runs the rule's parser with one unit of fuel less, and diverges without fuel |
| ParsecLaws.ParseIsRollback | parsec/src/parser.rs:8-10 | `parse` has the reply of `parse_raw`; on failure the offset is back at the start, otherwise it is where `parse_raw` stopped |
| ParsecLaws.ParseIdempotent | parsec/src/parser.rs:8-10 | a second transaction around `parse` changes neither reply nor offset |
| ParsecLaws.MatchLiteralSpec | parsec/src/consumers.rs:116-125 | literal matching succeeds exactly when the remaining input starts with the literal, and then ends \|literal\| further on |
| ParsecLaws.StringLaw | parsec/src/consumers.rs:116-127 | `string(s)` returns s and advances by \|s\| when the input continues with s; otherwise it fails with `expect "s"` at the start, with the offset restored |
| ParsecLaws.EmptyStringLaw | parsec/src/consumers.rs:116-125 | `string("")` succeeds without consuming |
| ParsecLaws.AnyCharLaw | parsec/src/consumers.rs:96-98 | `any_char` returns the next character and advances by 1; at the end it fails with "end of stream" at the offset |
| ParsecLaws.EosLaw | parsec/src/consumers.rs:149-155 | `eos` succeeds exactly at the end, consuming nothing; before the end it fails with "expect end of stream" at start+1, with the offset restored |
| ParsecLaws.JustLaw | parsec/src/just.rs:27-29 | `just(f)` always succeeds with f() and never moves the offset |
| ParsecLaws.FailLaw | parsec/src/fail.rs:43-45 | `fail(f)` always fails with message f() at the current offset, and never moves it |
| ParsecLaws.OrJustNeverFails | parsec/src/just.rs:27-29 | `p.or(just(f))` never fails |
| ParsecLaws.OrFailLaw | parsec/src/fail.rs:43-45 | `inner.or(fail(f))` fails at the start offset; it reports f() when inner's error position is at most the start, and inner's error otherwise |
| ParsecLaws.RefLaw | s-expression/src/parser.rs:35-37 | a grammar-rule reference is its rule with one unit of fuel less, and diverges without fuel |
| ParsecLaws.AnyLaw | parsec/src/any.rs:10-33 | `Any` behaves exactly as the parser it wraps, and wrapping an `Any` again changes nothing (a clone is the same value) |
| ParsecLaws.MapLaw | parsec/src/adapters.rs:19-21 | Map gives f(v) when the parent gives v, and otherwise the parent's reply; the offset is the parent's |
| ParsecLaws.DebugLaw | parsec/src/adapters.rs:344-348 | Debug returns the parent's result unchanged |
| ParsecLaws.AndThenLaw | parsec/src/adapters.rs:39-43 | AndThen passes on the parent's failure; if f gives Ok(w) the result is w; if f gives Err(m) it fails with m at the offset after the parent, with the cursor restored |
| ParsecLaws.FlatMapLaw | parsec/src/adapters.rs:61-65 | FlatMap passes on the parent's failure; otherwise it runs the continuation from where the parent stopped, and a failure of the continuation restores the start |
| ParsecLaws.PairLaw | parsec/src/adapters.rs:82-86 | Pair yields (left, right) in input order; a failure of right also undoes what left consumed |
| ParsecLaws.UseLeftLaw | parsec/src/adapters.rs:103-109 | UseLeft returns only left's value but consumes both parts |
| ParsecLaws.UseRightLaw | parsec/src/adapters.rs:126-132 | UseRight returns only right's value but consumes both parts |
| ParsecLaws.BetweenLaw | parsec/src/adapters.rs:151-157 | Between returns only the parent's value and consumes left, parent and right; any failure restores the start |
| ParsecLaws.MapSucceeds | parsec/src/adapters.rs:19-21 | a successful parent gives f of its value at the same offset |
| ParsecLaws.FlatMapSucceeds | parsec/src/adapters.rs:61-65 | parent then continuation, both successful, give the continuation's value and offset |
| ParsecLaws.PairSucceeds | parsec/src/adapters.rs:82-86 | two successes in a row give the tuple at the second offset |
| ParsecLaws.BetweenSucceeds | parsec/src/adapters.rs:151-157 | three successes in a row give the middle value at the last offset |
| ParsecLaws.BetweenLeftStops | parsec/src/adapters.rs:151-157 | when left does not succeed, Between gives left's reply, failing at the start |
| ParsecLaws.BetweenParentStops | parsec/src/adapters.rs:151-157 | when the parent does not succeed after left, Between gives the parent's reply, failing at the start |
| ParsecLaws.BetweenRightFails | parsec/src/adapters.rs:151-157 | when right fails, Between fails with right's error at the start |
| ParsecLaws.OrLaw | parsec/src/adapters.rs:174-185 | Or returns left's result without running right when left does not fail; otherwise it runs right from the restored offset; when both fail it keeps the error with the larger position, ties going to right |
| ParsecLaws.OrLeftStands | parsec/src/adapters.rs:175-176 | a left branch that does not fail is the result of Or |
| ParsecLaws.OrRightStands | parsec/src/adapters.rs:177 | after a failed left branch, a right branch that does not fail is the result of Or |
| ParsecLaws.OrBothFail | parsec/src/adapters.rs:177-183 | when both fail, Or fails at the start with left's error if its position is larger, else right's |
| ParsecLaws.OrErrorChoice | parsec/src/adapters.rs:177-183 | the reported error is one of the two, its position is the maximum of theirs, and on a tie it is right's |
| ParsecLaws.FilterLaw | parsec/src/adapters.rs:269-277 | Filter fails with "unsatisfied" after the parent when the predicate is false, with the cursor restored; otherwise it is the parent |
| ParsecLaws.LabelLaw | parsec/src/adapters.rs:322-327 | Label replaces only the message of a failure, and keeps its position |
| ParsecLaws.NestedLabelLaw | parsec/src/adapters.rs:322-327 | with nested labels the outermost message wins and the parent's error position is kept |
| ParsecLaws.SomeLoopSound | parsec/src/adapters.rs:200-207 | what the `some` loop appends is a chain of successful parent runs ending where the parent next fails |
| ParsecLaws.SomeLoopComplete | parsec/src/adapters.rs:200-207 | every such chain that ends in a failure is what the loop returns |
| ParsecLaws.Iterates | parsec/src/adapters.rs:200-207 | a run of consecutive parent successes, each consuming input, stays within the input |
| ParsecLaws.SomeLaw | parsec/src/adapters.rs:200-207 | `some` gives the list vs, ending at e, exactly when vs has at least one value, vs are consecutive parent successes ending at e, and the parent fails at e (its error discarded) |
| ParsecLaws.SomeFirstFailure | parsec/src/adapters.rs:201 | when the first attempt fails, `some` fails with that same error |
| ParsecLaws.ManyLaw | parsec/src/adapters.rs:222-228 | `many` gives the list vs ending at e exactly when vs are consecutive parent successes ending at e and the parent fails there (so [] at the start offset when the first attempt fails) |
| ParsecLaws.ManyNeverFails | parsec/src/adapters.rs:222-228 | `many` never fails |
| ParsecLaws.ManyTillLoopSkip | parsec/src/adapters.rs:245-252 | after a run of parent successes, each preceded by a failed `end`, the `many_till` loop finishes exactly as it would from where the run ends, with those values appended |
| ParsecLaws.IteratesTill | parsec/src/adapters.rs:245-252 | a run of parent successes, each after a failed `end`, stays within the input |
| ParsecLaws.ManyTillLaw | parsec/src/adapters.rs:245-252 | after parent values vs, a successful `end` stops the loop, keeping its consumption but not its value; a parent failure there fails the whole combinator |
| ParsecLaws.SplitLaw | parsec/src/adapters.rs:294-304 | after a first element, `split` gives first :: vs exactly when vs are consecutive separator-then-element successes that stop where the next one fails; separators are dropped |
| ParsecLaws.SplitFirstFailure | parsec/src/adapters.rs:295 | when the first element does not parse, `split` gives that reply |
| ParsecLaws.SplitNeverFailsAfterFirst | parsec/src/adapters.rs:294-304 | `split` never fails once the first element parses |
| ParsecLaws.SplitTrailingSeparator | parsec/src/adapters.rs:294-304 | a trailing separator with no element after it is not consumed |
| ParsecConsumers.SpanEnd | parsec/src/consumers.rs:19-58 | the end of the maximal run of characters of a class: every character before it is in the class, and the one at it is not |
| ParsecConsumers.Chrs | parsec/src/consumers.rs:19-58 | the characters of a string, one value per character, in order |
| ParsecConsumers.Chars | parsec/src/consumers.rs:19-58 | the string of a list of character values, in order |
| ParsecConsumers.CollectChrs | parsec/src/consumers.rs:19-21 | collecting the character values of a string gives back that string |
| ParsecConsumers.CharClassLaw | parsec/src/consumers.rs:7-27 | a one-character class parser takes a character of its class and advances by 1; otherwise it fails with its own message at start+1, or with its own message at the start at the end of input |
| ParsecConsumers.ClassIterates | parsec/src/consumers.rs:19-21 | repeating a class parser takes exactly the maximal run of the class |
| ParsecConsumers.ManyClassLaw | parsec/src/consumers.rs:19-21 | `many` of a class parser gives the characters of the maximal run and stops after it |
| ParsecConsumers.CharClassReads | parsec/src/consumers.rs:7-27 | a class parser reads one character of its class at every offset |
| ParsecConsumers.CollectedClassLaw | parsec/src/consumers.rs:19-21 | a collected class run gives the maximal run as a string |
| ParsecConsumers.CharLaw | parsec/src/consumers.rs:7-11 | `char(c)` succeeds only on c and advances by 1; otherwise it fails with `expect 'c'` at start+1, or at the start at end of input |
| ParsecConsumers.WhitespacesLaw | parsec/src/consumers.rs:13-21 | `whitespaces` never fails and returns the maximal run of white space |
| ParsecConsumers.NumberLaw | parsec/src/consumers.rs:29-41 | `number` reads the maximal run of ASCII digits and returns its value; an empty run or a value beyond i64 fails with "expect number" |
| ParsecConsumers.IdentifierLaw | parsec/src/consumers.rs:43-58 | `identifier` takes an ASCII letter or '_' and then the maximal run of letters, digits and '_', returning the text read; otherwise it fails with "expect identifier" |
| ParsecConsumers.FirstCharLaw | parsec/src/consumers.rs:44-47 | the identifier's first character is an ASCII letter or '_'; anything else fails with the error of its last alternative |
| ParsecConsumers.IdentifierCharReads | parsec/src/consumers.rs:48-53 | the identifier's later characters are read one at a time, letters, digits and '_' |
| ParsecConsumers.BoolLaw | parsec/src/consumers.rs:64-69 | `bool` maps "true" to true and "false" to false, advancing by the literal's length, and otherwise fails with "expect bool" |
| SExprExpression.OperatorKinds | s-expression/src/expression.rs:50-61 | there are exactly seven distinct operators, and each is either arithmetic or relational, never both |
| ParsecFuel.RunMono | parsec/src/parser.rs:8-10 | a `parse` that finishes with some fuel gives the same reply and offset with any larger amount |
| ParsecFuel.RawMono | parsec/src/adapters.rs:19-21 | the same for the `parse_raw` of every parser struct |
| ParsecFuel.RefMono | s-expression/src/parser.rs:35-37 | a grammar-rule call that finishes had fuel left, and finishes the same way with more |
| ParsecFuel.MapMono | parsec/src/adapters.rs:19-21 | a Map that finishes finishes the same way with more fuel |
| ParsecFuel.AndThenMono | parsec/src/adapters.rs:39-43 | the same for AndThen |
| ParsecFuel.FlatMapMono | parsec/src/adapters.rs:61-65 | a FlatMap that finishes had fuel for its continuation, and finishes the same way with more |
| ParsecFuel.PairMono | parsec/src/adapters.rs:82-86 | the same for Pair |
| ParsecFuel.UseLeftMono | parsec/src/adapters.rs:103-109 | the same for UseLeft |
| ParsecFuel.UseRightMono | parsec/src/adapters.rs:126-132 | the same for UseRight |
| ParsecFuel.BetweenMono | parsec/src/adapters.rs:151-157 | the same for Between |
| ParsecFuel.OrMono | parsec/src/adapters.rs:174-185 | the same for Or |
| ParsecFuel.SomeMono | parsec/src/adapters.rs:200-207 | the same for Some |
| ParsecFuel.SomeLoopMono | parsec/src/adapters.rs:200-207 | the `while let` loop of Some that finishes takes the same rounds with more fuel |
| ParsecFuel.ManyMono | parsec/src/adapters.rs:222-228 | the same for Many |
| ParsecFuel.ManyTillLoopMono | parsec/src/adapters.rs:245-252 | the `while` loop of ManyTill that finishes takes the same rounds with more fuel |
| ParsecFuel.ManyTillEndStops | parsec/src/adapters.rs:245-252 | when `end` succeeds, or diverges, the same with both amounts, the loop stops the same way |
| ParsecFuel.ManyTillRound | parsec/src/adapters.rs:245-252 | one round of the loop with `end` and the parent alike under both amounts gives the same step |
| ParsecFuel.FilterMono | parsec/src/adapters.rs:269-277 | the same for Filter |
| ParsecFuel.SplitMono | parsec/src/adapters.rs:294-304 | the same for Split |
| ParsecFuel.SplitRestMono | parsec/src/adapters.rs:296-302 | the same for the separated rest of Split |
| ParsecFuel.LabelMono | parsec/src/adapters.rs:322-327 | the same for Label |
| ParsecFuel.StrHalts | parsec/src/consumers.rs:116-127 | `string(s)` finishes at every offset |
| ParsecFuel.FailHalts | parsec/src/fail.rs:43-45 | `fail(f)` finishes at every offset |
| ParsecFuel.MapHalts | parsec/src/adapters.rs:19-21 | Map finishes wherever its parent does |
| ParsecFuel.PairHalts | parsec/src/adapters.rs:82-86 | Pair finishes where both sides finish from every offset they may start at |
| ParsecFuel.OrHalts | parsec/src/adapters.rs:174-185 | Or finishes where both sides finish |
| ParsecFuel.FlatMapHalts | parsec/src/adapters.rs:61-65 | FlatMap finishes where its parent finishes and every continuation finishes with one unit of fuel less |
| ParsecFuel.SomeLoopHalts | parsec/src/adapters.rs:200-207 | the loop of Some stops when its parent finishes and consumes input whenever it succeeds |
| ParsecFuel.ManyHalts | parsec/src/adapters.rs:222-228 | Many finishes when its parent finishes and consumes input whenever it succeeds |
| SExprParserExt.SkipWhitespace | s-expression/src/parser.rs:109-111 | skipping white space stays inside the input and never goes back |
| SExprParserExt.SkipWhitespaceIdempotent | s-expression/src/parser.rs:109-111 | skipping white space twice is skipping it once |
| SExprParserExt.MapBoxLaw | s-expression/src/parser.rs:105-107 | `map_box` does not change behaviour: boxing is the identity |
| SExprParserExt.WhitespacesSkip | parsec/src/consumers.rs:19-21 | `whitespaces` always succeeds and ends where the white-space skip ends |
| SExprParserExt.CharReads | parsec/src/consumers.rs:7-11 | `char(c)` reads exactly one c and fails with `expect 'c'` on anything else |
| SExprParserExt.TrimLaw | s-expression/src/parser.rs:109-111 | `trim_whitespaces(p)` runs p after the leading white space and skips the trailing white space after a success; a failure of p fails at the start with p's error |
| SExprParserExt.TrimSucceeds | s-expression/src/parser.rs:109-111 | a success of p after the white space gives p's value, after the trailing white space |
| SExprParserExt.TrimStops | s-expression/src/parser.rs:109-111 | a p that does not succeed gives p's reply, failing at the start |
| SExprParserExt.TrimWhitespacesLaw | s-expression/src/parser.rs:109-111 | the same, for the real `whitespaces` parser |
| SExprParserExt.BracketNoOpen | s-expression/src/parser.rs:113-118 | when no '(' comes after the white space, the bracket fails with `expect '('` |
| SExprParserExt.BracketInnerFails | s-expression/src/parser.rs:113-118 | a failure of the bracketed parser fails the bracket at the start |
| SExprParserExt.BracketNoClose | s-expression/src/parser.rs:113-118 | when no ')' follows the bracketed value, the bracket fails with `expect ')'` at the start |
| SExprParserExt.BracketClosed | s-expression/src/parser.rs:113-118 | ws '(' ws p ws ')' ws gives p's value and ends after the closing white space |
| SExprParserExt.BracketLaw | s-expression/src/parser.rs:113-118 | the bracket's run in every case equals the reference step |
| SExprParserExt.BracketStepTrailing | s-expression/src/parser.rs:113-118 | the outer white-space trim changes only where a success ends and where a failure is reported |
| SExprParserExt.ParenthesesLaw | s-expression/src/parser.rs:113-118 | the whole of `in_parentheses` equals the reference step |
| SExprParserExt.InParenthesesLaw | s-expression/src/parser.rs:113-118 | `in_parentheses(p)` accepts ws '(' ws p ws ')' ws and returns p's value |
| SExprParser.OperatorOf | s-expression/src/parser.rs:44-55 | an accepted character is the symbol of the operator returned; any other character has no operator and gets "expect operator" |
| SExprParser.OperatorSymbols | s-expression/src/parser.rs:44-55 | each of the seven operators is read back from its own symbol |
| SExprParser.OperatorTokenLaw | s-expression/src/parser.rs:44-55 | `oper()` reads one operator character; another character fails with "expect operator" past it, and the end of input with "end of stream" |
| SExprParser.EnvOf | s-expression/src/parser.rs:76-78 | the environment collected from the bindings has exactly the names bound |
| SExprParser.EnvOfLastWins | s-expression/src/parser.rs:76-78 | a later binding of a name overrides an earlier one |
| SExprParser.Further | parsec/src/adapters.rs:177-183 | the error kept by a failed Or is one of the two, is at least as far as both, and is the right one on a tie |
| SExprParser.Choice | s-expression/src/parser.rs:10-14 | the result of a chain of alternatives is one of their results, or a step at the start |
| SExprParser.ChoiceFirstSuccess | s-expression/src/parser.rs:10-14 | the first alternative that does not fail is the result |
| SExprParser.LastFurthest | s-expression/src/parser.rs:10-14 | when all alternatives fail, the error kept is the last of those that failed furthest |
| SExprParser.ChoiceAllFail | s-expression/src/parser.rs:10-14 | when all alternatives fail, the chain fails at the start with that error |
| SExprParser.ChoiceLaw | s-expression/src/parser.rs:10-14 | a left-nested chain of `or` equals the choice over the alternatives' runs |
| SExprParser.SubExpLaw | s-expression/src/parser.rs:35-37 | a nested `exp().map_box()` runs the expression rule |
| SExprParser.FormLaw | s-expression/src/parser.rs:40-41 | a bracketed form followed by `.or(fail(m))` reports m when the bracket fails no further than its start |
| SExprParser.OperCoreLaw | s-expression/src/parser.rs:32-39 | an operator character and two sub-expressions give `Oper(op, lhs, rhs)` |
| SExprParser.OperBodyLaw | s-expression/src/parser.rs:34-39 | the two sub-expressions, in order, give the operator expression |
| SExprParser.OperCoreNoOperator | s-expression/src/parser.rs:44-55 | the operator form fails when no operator character comes first |
| SExprParser.IfCoreLaw | s-expression/src/parser.rs:59-66 | the word "if" and exactly three sub-expressions give `If(pred, then, else)` |
| SExprParser.IfBodyLaw | s-expression/src/parser.rs:61-66 | three sub-expressions in order give predicate, then-branch and else-branch |
| SExprParser.BindingCoreLaw | s-expression/src/parser.rs:86-91 | a binding is an identifier followed by a sub-expression |
| SExprParser.LetCoreLaw | s-expression/src/parser.rs:73-81 | the word "let", the bindings `many` collects, and one body give `Let(env, body)`, with the bindings collected as the environment |
| SExprParser.LetBodyLaw | s-expression/src/parser.rs:75-80 | the collected bindings and the body form the pair the let form maps |
| SExprParser.NumberAtom | s-expression/src/parser.rs:21-22 | digits within i64 give an Int atom |
| SExprParser.BoolAtomLaw | s-expression/src/parser.rs:23 | "true" and "false" give Bool atoms |
| SExprParser.VarAtomLaw | s-expression/src/parser.rs:24 | an identifier gives a Var atom |
| SExprParser.AtomTokenNumber | s-expression/src/parser.rs:20-25 | number is tried first |
| SExprParser.AtomTokenBool | s-expression/src/parser.rs:20-25 | without a number, bool is tried next |
| SExprParser.AtomTokenNoLiteral | s-expression/src/parser.rs:20-25 | with no number, bool or identifier the atom fails |
| SExprParser.AtomTokenVar | s-expression/src/parser.rs:20-25 | with neither a number nor a bool, an identifier is a Var, so "if" and "let" alone are variables |
| SExprParser.AtomTokenLaw | s-expression/src/parser.rs:20-25 | the atom token equals its reference step in every case |
| SExprParser.AtomExpLaw | s-expression/src/parser.rs:20-28 | `atom_exp` is the trimmed atom, or "atom expression syntax error" when that fails no further than its start |
| SExprParser.LetExpLaw | s-expression/src/parser.rs:73-84 | `let_exp` is the let form in parentheses, with its own fallback message |
| SExprParser.IfExpLaw | s-expression/src/parser.rs:59-69 | `if_exp` is the if form in parentheses, with its own fallback message |
| SExprParser.OperExpLaw | s-expression/src/parser.rs:32-42 | `oper_exp` is the operator form in parentheses, with its own fallback message |
| SExprParser.ExpRuns | s-expression/src/parser.rs:9-14 | the five alternatives of `exp` run as let, if, operator, atom, "syntax error", in that order |
| SExprParser.ExpChoice | s-expression/src/parser.rs:9-14 | the alternatives of `exp` are chosen by the rules of `or` |
| SExprParser.ExpLaw | s-expression/src/parser.rs:9-16 | `exp` is the choice of its alternatives with surrounding white space trimmed |
| SExprParser.FormNeedsParenthesis | s-expression/src/parser.rs:113-118 | a form fails when no '(' comes first: at the end with its own message, otherwise with `expect '('` past the character |
| SExprParser.ExpAtEnd | s-expression/src/parser.rs:9-16 | on white space alone, `exp` fails with "syntax error" at the end of the input |
| SExprParser.ExpOfAtom | s-expression/src/parser.rs:9-28 | where no parenthesis opens, `exp` yields the atom, if there is one |
| SExprParser.LetCoreNoWord | s-expression/src/parser.rs:74 | without the word "let" the let form fails |
| SExprParser.IfCoreNoWord | s-expression/src/parser.rs:60 | without the word "if" the if form fails |
| SExprParser.FormInnerFails | s-expression/src/parser.rs:113-118 | a bracketed form whose inner parser fails fails at its start |
| SExprParser.FormSucceeds | s-expression/src/parser.rs:113-118 | a bracketed form whose inner parser succeeds and is closed by ')' gives its value after the trailing white space |
| SExprParser.LetFormFails | s-expression/src/parser.rs:73-84 | after '(', a character other than 'l' makes the let alternative fail |
| SExprParser.IfFormFails | s-expression/src/parser.rs:59-69 | after '(', a character other than 'i' makes the if alternative fail |
| SExprParser.OperFormSucceeds | s-expression/src/parser.rs:32-42 | '(' op lhs rhs ')' gives the operator expression |
| SExprParser.OperAlternative | s-expression/src/parser.rs:9-14 | a successful operator form is the result of `exp`'s choice when let and if do not apply |
| SExprParser.ExpOfOper | s-expression/src/parser.rs:9-42 | text `( op x y )` parses as `Oper(op, x, y)` |
| SExprParser.IfFormSucceeds | s-expression/src/parser.rs:59-69 | '(' "if" p t e ')' gives the if expression |
| SExprParser.IfAlternative | s-expression/src/parser.rs:9-14 | a successful if form is the result of `exp`'s choice |
| SExprParser.ExpOfIf | s-expression/src/parser.rs:9-69 | text `( if p t e )` parses as `If(p, t, e)` |
| SExprParser.LetFormSucceeds | s-expression/src/parser.rs:73-84 | '(' "let" bindings body ')' gives the let expression |
| SExprParser.ExpOfLet | s-expression/src/parser.rs:9-84 | text `( let bindings body )` parses as `Let(env, body)`, with the environment collected from the bindings |
| SExprParser.ParseBlank | s-expression/src/parser.rs:5-16 | an input of white space alone is rejected with "syntax error" at its end |
| SExprParser.ParseAtom | s-expression/src/parser.rs:5-28 | an input that starts with an atom parses as that atom, whatever follows |
| SExprParser.ParseEmpty | s-expression/src/parser.rs:5-16 | the empty input is rejected with "syntax error" at 0 |
| SExprParser.ParseIgnoresRest | s-expression/src/parser.rs:5-7 | top-level parsing does not require the end of input: "7 )" parses as 7 |
| SExprParser.ParseReservedWord | s-expression/src/parser.rs:20-28 | "if" alone parses as a variable |
| SExprParser.ParseBoolPrefix | s-expression/src/parser.rs:20-28 | "truex" parses as the Bool true, the rest being ignored |
| SExprParser.ParseSum | s-expression/src/parser.rs:5-55 | "(+ 1 2)" parses as `Oper(Add, 1, 2)` |
| SExprParser.DigitOperand | s-expression/src/parser.rs:20-22 | a single digit is an Int operand |
| SExprParserFuel.ParseFuelMonotone | s-expression/src/parser.rs:5-7 | a parse that finishes gives the same outcome with more fuel |
| SExprParserFuel.ParseFinishes | s-expression/src/parser.rs:5-16 | with at least 2·\|input\|+2 units of fuel `parse` finishes, with the outcome it has at that bound |
| SExprParserFuel.ExpHalts | s-expression/src/parser.rs:9-16 | `exp()` from an offset finishes with two units of fuel per remaining character and two more |
| SExprParserFuel.ExpHaltsAt | s-expression/src/parser.rs:9-16 | `exp()` finishes when every nested `exp()`, further on and with two units less, finishes |
| SExprParserFuel.FormsHalt | s-expression/src/parser.rs:9-14 | the five alternatives of `exp()` finish when the sub-expressions past the start do |
| SExprParserFuel.SubExpHalts | s-expression/src/parser.rs:35-37 | `exp().map_box()` finishes where `exp()` finishes with one unit less |
| SExprParserFuel.InParenthesesHalts | s-expression/src/parser.rs:113-118 | `in_parentheses(p)` finishes when p finishes after the `(`, and a success consumes input |
| SExprParserFuel.InParenthesesHaltsAt | s-expression/src/parser.rs:113-118 | the same at one offset |
| SExprParserFuel.FormHalts | s-expression/src/parser.rs:40-41 | a bracketed form with its `fail` fallback finishes when the bracketed parser does |
| SExprParserFuel.IdentifierHalts | parsec/src/consumers.rs:43-58 | `identifier` finishes at every offset |
| SExprParserFuel.OperatorTokenHalts | s-expression/src/parser.rs:44-55 | `oper()` finishes at every offset |
| SExprParserFuel.AtomExpHalts | s-expression/src/parser.rs:20-28 | `atom_exp()` finishes at every offset |
| SExprParserFuel.LetExpHalts | s-expression/src/parser.rs:73-84 | the let form finishes when its sub-expressions do: `many` over bindings moves on with each binding |
| SExprParserFuel.BindingConsumes | s-expression/src/parser.rs:86-91 | a binding that succeeds has consumed input |
| SExprParserFuel.IfExpHalts | s-expression/src/parser.rs:59-69 | the if form finishes when its sub-expressions do |
| SExprParserFuel.OperExpHalts | s-expression/src/parser.rs:32-42 | the operator form finishes when its sub-expressions do |
| SExprResult.ValText | s-expression/src/result.rs:25-32 | a value's text is non-empty and starts with a digit or '-' exactly when the value is an Int; an Int's text carries the '-' exactly for negatives, an i64 Int's text reads back as the integer, and it has no leading zero; a Bool displays as "true" or "false" |
| SExprResult.ValTextInjective | s-expression/src/result.rs:25-32 | two values display the same exactly when they are equal |
| SExprResult.ErrorTextInjective | s-expression/src/result.rs:42-52 | two errors display the same exactly when they are equal: "Type Mismatch", "Unbound Identifier", "Division By Zero" and parsec's "[pos] msg" never collide |
| SExprEvaluator.TruncDiv | s-expression/src/evaluator.rs:59 | the quotient truncates toward zero: the remainder is smaller than the divisor in size and has the sign of the dividend |
| SExprEvaluator.TruncDivRemainder | s-expression/src/evaluator.rs:59 | the remainder of the truncated quotient is the remainder of the magnitudes, with the dividend's sign |
| SExprEvaluator.TruncDivExamples | s-expression/src/lib.rs:15 | -7/2 = -3, 7/-2 = -3, -7/-2 = 3, 7/2 = 3 |
| SExprEvaluator.ApplyOper | s-expression/src/evaluator.rs:51-65 | an operator fails exactly on division by zero, with DivisionByZero; arithmetic operators give an Int and relational ones a Bool |
| SExprEvaluator.EvalAtom | s-expression/src/evaluator.rs:27-38 | Int and Bool atoms evaluate to themselves; an unbound variable gives UnboundIdentifier |
| SExprEvaluator.VarLookup | s-expression/src/evaluator.rs:31-36 | a bound variable evaluates as its stored expression in the same environment, one unit of fuel being spent on the lookup |
| SExprEvaluator.TopLevelUnbound | s-expression/src/evaluator.rs:6-8 | evaluation starts in the empty environment, so a lone variable is unbound |
| SExprEvaluator.OperandErrorsFirst | s-expression/src/evaluator.rs:48-50 | the left operand is evaluated first and its error returned; the right operand's error comes next; both come before any type check |
| SExprEvaluator.OperOperandTypes | s-expression/src/evaluator.rs:48-66 | two Int operands give the operator's result; any other operand gives TypeMismatch |
| SExprEvaluator.ApplyOperLaw | s-expression/src/evaluator.rs:51-64 | each operator's result: sum, difference, product, truncated quotient, or the Bool of =, < and > |
| SExprEvaluator.IfLaw | s-expression/src/evaluator.rs:70-84 | a non-Bool predicate gives TypeMismatch; otherwise only the chosen branch is evaluated, the other never being evaluated |
| SExprEvaluator.LetLaw | s-expression/src/evaluator.rs:88-92 | the body is evaluated in the outer environment overridden by the let's own bindings; names it does not bind keep their outer meaning |
| SExprEvaluator.ShadowingExample | s-expression/src/lib.rs:27 | `(let (x 1) (let (x 2) x))` evaluates to 2 |
| SExprEvaluator.DynamicScopeExample | s-expression/src/evaluator.rs:31-36 | a variable's stored expression is evaluated where the variable is used, so a later binding of y is seen |
| SExprEvaluator.SelfBoundVariable | s-expression/src/evaluator.rs:31-36 | a variable bound to itself never finishes evaluating |
| SExprEvaluator.SelfReferenceDiverges | s-expression/src/evaluator.rs:88-92 | `(let (x x) x)` never finishes evaluating |
| SExprEvaluator.FuelMonotone | s-expression/src/evaluator.rs:11-22 | an evaluation that finishes has the same result with more fuel |
| SExprEvaluator.EvalOwnErrors | s-expression/src/evaluator.rs:11-92 | evaluation fails only with TypeMismatch, UnboundIdentifier or DivisionByZero, never with a parser error |
| SExprLib.RunParserError | s-expression/src/lib.rs:44-48 | `run` returns `Error::Parser(e)` exactly when parsing fails with e |
| SExprLib.RunFuelMonotone | s-expression/src/lib.rs:44-48 | a run that finishes gives the same answer with more fuel |
| SExprLib.RunEvaluatesParsed | s-expression/src/lib.rs:44-48 | `run` evaluates only a successfully parsed expression, and any other outcome of `run` comes from a successful parse |
| SExprLib.RunEmpty | s-expression/src/lib.rs:44-48 | the empty input reports "[0] syntax error" |
| SExprLib.RunReservedWord | s-expression/src/lib.rs:9 | "if" alone is an unbound variable: the code does not reserve the word |
| SExprLib.RunIgnoresRest | s-expression/src/lib.rs:44-48 | "7 )" evaluates to 7: text after a complete expression is ignored |
| SExprLib.RunSum | s-expression/src/lib.rs:12-15 | "(+ 1 2)" evaluates to 3 |

## Left out

- The read-eval-print loop in repl/src/main.rs is not part of this model: it is console I/O.
- parsec/src/lib.rs only declares modules and re-exports them; nothing there needs a model.
- The callback of `debug` (parsec/src/adapters.rs:346) is an arbitrary side effect. Debug is modelled as the identity on results.
- The `Rc` sharing of `Any` and its `Clone` are not modelled. `Any` is the value of the parser it wraps, and a clone is the same value.
- `Cow` messages are plain strings. A message closure (`label`, `fail`) is a Dafny function value, called once per use.
- Builder methods are the datatype constructors. A Rust closure captured by a builder is a Dafny function value.
- `From` conversions (`Atom::from`, `Val::from`) are the datatype constructors themselves, so they have no members of their own.
- Numerals.ParseI64: the `{:?}` text of Rust's `ParseIntError` is a placeholder message. `number` always replaces it through `label` (parsec/src/consumers.rs:33-34).
- SExprEvaluator.ApplyOper: does not model i64 overflow. Overflow of `+`, `-` and `*` panics in debug builds and wraps in release builds; `i64::MIN / -1` panics in every build profile. The model uses unbounded integers.
- Rules in the doc comment of s-expression/src/lib.rs that the code does not enforce are not asserted. These are:
  - variables of at most ten lower-case letters that exclude reserved words (lines 9 and 24);
  - evaluate-then-bind (lines 25-26).
  The model follows the code: any identifier is a variable, and `let` binds the unevaluated expression.
- Non-termination:
  - The parser reports `Diverged` for a repetition whose parent succeeds without consuming; the code loops forever there.
  - The parser spends one unit of fuel at each grammar-rule call (`Ref`) and one at each `flat_map` continuation. At either place it reports `Diverged` once the fuel is gone. The recursion of the real code has no such bound. ParsecFuel shows that fuel only bounds the depth: a run that finishes gives the same result with more fuel. SExprParserFuel shows that 2·\|input\|+2 units always suffice for `parse`.
  - The evaluator reports `OutOfFuel` when a variable lookup runs out of fuel.
  - SExprLib.Run uses one fuel bound for both parsing and evaluation.
- Value shapes:
  - A list item that is not a character reads as NUL when collected into a string.
  - A grammar value of an unexpected shape reads as a default expression, operator or environment.
  - The grammar's own parsers never produce such shapes.
- White space is the fixed Unicode White_Space character table that `char::is_whitespace` uses. UTF-8 decoding is not modelled: the input is a sequence of characters.
- SExprResult.ErrorText has no contract of its own. It is a `match` on the error kind, and its partner is SExprResult.ErrorTextInjective.
- SExprParser.ExpOfLet takes the run of `binding().many()` as a hypothesis. The text-level behaviour of the bindings is stated separately, by SExprParser.BindingCoreLaw and ParsecLaws.ManyLaw.
- ParsecConsumers.ReadsClass, ParsecFuel.Halts, ParsecFuel.HaltsFrom, ParsecFuel.ConsumesFrom and ParsecFuel.HaltsFromLater are helpers used to state the lemmas above; they have no rows of their own.
- ParsecSemantics.RawRun and its per-adapter helpers state only bounds on offsets in their own contracts. What each adapter does is stated by the lemmas in ParsecLaws, about `Run`.
