# Symbolic expressions: trees, derivatives, renderings and parsers

This project models the core of `objectExpression.js`:

- **The expression tree.** A constant, one of the variables `x`, `y`, `z`, or an operator node. There are fifteen operator kinds: `+ - * / negate sumexp lse sumsq2..5 distance2..5`.
- **Symbolic differentiation.** `diff` builds the derivative tree of every node kind.
- **Three text renderings.**
  - `toString`: operands first, then the operator, no brackets.
  - `prefix`: `(op a b)`.
  - `postfix`: `(a b op)`.
- **The tokenizer.** It puts spaces around brackets, trims, splits on single spaces and drops empty pieces.
- **The two recursive-descent parsers** for the bracketed notations, with their error family.
- **The bracket-free stack parser `parse`.** It reads the `toString` notation.

The modules follow the source:

| module | file | models |
|---|---|---|
| `Text` | `text.dfy` | `trim`, `split(' ')`, `filter`, the bracket padding of `getSplittedString` |
| `Expressions` | `expr.dfy` | numbers and their literals, the operator and variable registries, the tree |
| `Differentiation` | `diff.dfy` | `diff` and the per-operator derivative rules |
| `Rendering` | `render.dfy` | `toString`, `prefix`, `postfix` and the tokens each rendering splits into |
| `Parsing` | `parser.dfy` | `parseElement`, `checkLength`, `parsePrefixBrackets`, `parsePostfixBrackets`, `parsePrefix`, `parsePostfix` |
| `ParseProperties` | `roundtrip.dfy` | round trips and the error each malformed input raises |
| `StackParsing` | `stack.dfy` | `parse` |

**Parsing.**
- The source's token array is consumed destructively with `shift()`. Here it is an immutable sequence read through a cursor.
- Each parser is a specification function (`Element`, `PrefixGroup`, `PostfixGroup`, `Parse`).
- Each also has a method with the source's loops (`ParseElement`, `ParsePrefixBrackets`, `ParsePostfixBrackets`, `ParseString`), proved to return exactly what the function does.
- Each thrown error is a `ParseError` value, and the first one aborts the parse as in the source.

**The stack parser.**
- `ParseStack` is the loop of `parse`, proved equal to `StackParse`.
- Its `splice` call is modelled with the host's index clamping.
- On too short a stack, an operator therefore receives fewer operands than its arity.
- What it then builds depends on its registry builder (`Expressions.Build`):
  - `sumsqN` and `distanceN` take a rest parameter and build a node with fewer operands. For example, `x y distance3` leaves `x` and `distance3(y)`.
  - `+ - * /` and `negate` name their parameters, so the missing operands arrive as `undefined`. For example, `x +` builds `Add(x, undefined)`.
  - The tree has an `Undefined` leaf for that value. No parser accepts such a tree, and `diff` is not defined on it.
- `pop()` on an empty stack gives `None`.

**Numbers.**
- Constants hold integers, or `NaN` for a token `Number` cannot read.
- A numeric token is a decimal integer with an optional minus sign.

**Which error an unfinished expression raises.**
- The name and message of `UnexpectedEndOfExpressionError` (objectExpression.js:200-203, "Expected ')', got end of expression") suggest it is the error for input that stops too early, such as `(+ x`.
- In the code, the operand loop for a fixed-arity operator calls `parseElement` on the empty queue. `isNaN(undefined)` holds, so that call throws `UnexpectedTokenError(undefined)` (objectExpression.js:257-267) before `checkLength` is reached.
- So `(+ x` ends in `UnexpectedToken(None)` (`ParseProperties.PrefixTooFewOperands`).
- `UnexpectedEndOfExpression(")")` arises only when every operand is present and the `)` is missing (`ParseProperties.PrefixUnclosed`, `ParseProperties.PostfixUnclosed`).

## Model

| member | source | states |
|---|---|---|
| Text.Trim | objectExpression.js:253 | the result is a slice of the input; only whitespace is cut; a non-empty result starts and ends with non-whitespace |
| Text.SplitOnSpace | objectExpression.js:253 | `split(' ')` gives at least one piece; the first piece is a prefix of the input; no piece holds a space |
| Text.Pad | objectExpression.js:251-252 | the two `replaceAll` calls add no whitespace other than spaces; `PadIsolates` proves every bracket ends up with a space on both sides |
| Text.Tokenize | objectExpression.js:250-254 | every token is non-empty and space-free; a token holding a bracket is that bracket alone |
| Text.TokensSpellInput | objectExpression.js:250-254 | the tokens, concatenated, are the input with its spaces removed: nothing is lost, invented or reordered |
| Text.OnlySpaceSeparates | objectExpression.js:250-254 | a space-free, bracket-free word with non-whitespace ends is one token |
| Text.PadIsolates | objectExpression.js:251-252 | after padding, every bracket has a space on both sides |
| Text.WordsConcat | objectExpression.js:253 | splitting and filtering `a + " " + b` gives the words of `a` followed by those of `b` |
| Text.TrimKeepsWords | objectExpression.js:253 | on space-only whitespace, trimming before splitting does not change the words |
| Expressions.NumToString | objectExpression.js:8-10 | `"" + value` for an integer or `NaN`; `NumberRoundTrip` and `NumberIsLeaf` state what it promises |
| Expressions.IsNumeric | objectExpression.js:261 | `!isNaN(token)` on optional-minus decimal integers; its partner is `NumberRoundTrip` |
| Expressions.ParseNum | objectExpression.js:262 | `Number(token)` on a numeric token; `NumberRoundTrip` proves it inverts `NumToString` |
| Expressions.NumberRoundTrip | objectExpression.js:8-10 | the literal of every integer constant is numeric and `Number` reads back the same integer |
| Expressions.Arity | objectExpression.js:226-242 | the registry's argument count: `-1` for `sumexp`/`lse`, otherwise between 1 and 5 |
| Expressions.Sign | objectExpression.js:84-86 | `getOperationSign()` of each kind, with the signs given at lines 95-174 and 359-390; `OperatorOfSign` proves the registry inverts it |
| Expressions.OperatorOf | objectExpression.js:226-242 | a registry hit for token `t` is a kind whose sign is `t` |
| Expressions.VariableOf | objectExpression.js:244-248 | a registry hit for token `t` is a variable spelt `t` |
| Expressions.Build | objectExpression.js:226-242 | a named-parameter builder (`+ - * / negate`) makes a node of exactly its arity, with `undefined` for each missing operand; a rest-parameter builder takes the operands as given |
| Expressions.BuildExact | objectExpression.js:226-242 | given exactly its operands, every builder makes the plain node |
| Expressions.BuildShort | objectExpression.js:227-231 | given too few operands, a named-parameter builder's node starts with them, continues with `undefined`, and is neither parseable, differentiable nor stack-shaped |
| Expressions.OperatorOfSign | objectExpression.js:226-242 | the operator registry maps a token to kind `k` exactly when `k`'s sign is that token |
| Expressions.VariableOfName | objectExpression.js:244-248 | the variable registry maps a token to a name exactly when the name is spelt as that token |
| Expressions.SignIsAtom | objectExpression.js:226-242 | every operator sign is one space-free, bracket-free token that is neither numeric nor a variable |
| Expressions.NumberIsLeaf | objectExpression.js:8-10 | a constant's literal is one token that is not an operator, a bracket or a variable |
| Expressions.NameIsLeaf | objectExpression.js:37-39 | a variable's literal is one token, not numeric, that the registry maps back to it |
| Expressions.NumeralIsNotOperator | objectExpression.js:256-262 | a token starting with a digit or a minus-and-more is neither an operator nor a variable |
| Differentiation.Diff | objectExpression.js:67-69 | the derivative of a differentiable tree is differentiable and mentions no variable the tree does not |
| Differentiation.Derivatives | objectExpression.js:68 | each derivative in the list is that argument's derivative, differentiable, and mentions only that argument's variables |
| Differentiation.DiffRule | objectExpression.js:95-174 | the `getDiffExpression` of each kind (with `sumsqN`/`distanceN` at lines 359-390), applied to the operands and their derivatives; its shapes are stated by `DiffLinear`, `DiffProductQuotient`, `DiffSumexpIsSum`, `DiffLseIsQuotient`, `DiffSumsqIsSum` and `DiffDistanceIsQuotient` |
| Differentiation.DiffedSumexp | objectExpression.js:148-153 | `getDiffedSumExpExpression`; `ReduceAddIsChain` proves it is the in-order sum of `sumexp(ai) * ai'` |
| Differentiation.DiffedSumsq | objectExpression.js:345-357 | `getDiffedSumSqExpression`; `SumsqIsChain` proves it is `2 *` the in-order sum of `ai * ai'` |
| Differentiation.SumsqIsChain | objectExpression.js:345-357 | the folded sumsq derivative equals `2 * AddChain(ai * ai')` |
| Differentiation.RuleKeepsInvariants | objectExpression.js:95-174 | every derivative rule builds a differentiable tree from the operands and their derivatives only |
| Differentiation.ReduceAddIsChain | objectExpression.js:148-153 | the left fold of `reduce` with `Add` is the left-nested sum of the accumulator and the terms |
| Differentiation.DiffLeaves | objectExpression.js:11-45 | a constant differentiates to 0; a variable to 1 if it is the differentiation variable, else 0 |
| Differentiation.DiffLinear | objectExpression.js:95-114 | the derivative of negation, sum and difference is the negation, sum or difference of the derivatives |
| Differentiation.DiffProductQuotient | objectExpression.js:116-141 | the derivatives of `*` and `/` are the product rule and the quotient rule, with the original operands |
| Differentiation.DiffSumexpIsSum | objectExpression.js:148-162 | the derivative of `sumexp(a1..an)` is the sum of `sumexp(ai) * ai'` over every operand |
| Differentiation.DiffLseIsQuotient | objectExpression.js:164-174 | the derivative of `lse(args)` is the derivative of `sumexp(args)` over `sumexp(args)` |
| Differentiation.DiffSumsqIsSum | objectExpression.js:345-372 | the derivative of `sumsqN(a1..aN)` is `2 * (a1*a1' + ... + aN*aN')` |
| Differentiation.DiffDistanceIsQuotient | objectExpression.js:374-390 | the derivative of `distanceN(args)` is the `sumsqN(args)` derivative over twice the original distance node |
| Rendering.ToString | objectExpression.js:63-66 | `toString()` of a node, with the leaves at lines 8-10 and 37-39; what it splits into is `SplitToString`, and `StackRoundTrip` reads it back |
| Rendering.Prefix | objectExpression.js:70-73 | `prefix()` of a node, with the leaves at lines 14-16 and 46-48; its tokens are `TokenizePrefix`, and `PrefixRoundTrip` reads it back |
| Rendering.Postfix | objectExpression.js:74-77 | `postfix()` of a node, with the leaves at lines 17-19 and 49-51; its tokens are `TokenizePostfix`, and `PostfixRoundTrip` reads it back |
| Rendering.FirstToken | objectExpression.js:70-77 | a prefix or postfix rendering starts with `(` or with a leaf token |
| Rendering.TokenizePrefix | objectExpression.js:70-73 | tokenizing a prefix rendering gives `(`, the sign, each operand's tokens, `)` |
| Rendering.TokenizePostfix | objectExpression.js:74-77 | tokenizing a postfix rendering gives `(`, each operand's tokens, the sign, `)` |
| Rendering.SplitToString | objectExpression.js:63-66 | splitting a `toString` rendering on spaces gives each operand's tokens followed by the sign |
| Rendering.RenderingsSpacesOnly | objectExpression.js:63-77 | no rendering holds whitespace other than the single space |
| Parsing.CheckLength | objectExpression.js:270-277 | no error exactly when `)` is next; end of input raises end-of-expression; another token raises that token |
| Parsing.Element | objectExpression.js:256-268 | a successful element parse consumes at least one token and builds a tree with the registry's arities |
| Parsing.PrefixGroup | objectExpression.js:279-302 | a successful prefix group consumes at least one token and builds a well-formed tree |
| Parsing.FixedOperands | objectExpression.js:287-290 | a fixed-arity operand list has exactly the declared number of operands and keeps what was read |
| Parsing.VariadicOperands | objectExpression.js:291-295 | a variadic operand list stops only at `)` or at the end of input |
| Parsing.PostfixOperands | objectExpression.js:307-310 | a postfix operand list stops only at an operator token or at the end of input |
| Parsing.PostfixGroup | objectExpression.js:304-325 | a successful postfix group consumes at least one token and builds a well-formed tree |
| Parsing.Parse | objectExpression.js:327-339 | every tree either parser returns is well formed |
| Parsing.ParseElement | objectExpression.js:256-268 | the method's result is exactly `Element` |
| Parsing.ParsePrefixBrackets | objectExpression.js:279-302 | the method, with its two loops, returns exactly `PrefixGroup` |
| Parsing.ParsePostfixBrackets | objectExpression.js:304-325 | the method, with its loop, returns exactly `PostfixGroup` |
| Parsing.ParseString | objectExpression.js:327-339 | the method returns exactly `Parse` |
| ParseProperties.PrefixRoundTrip | objectExpression.js:279-302 | parsing the prefix rendering of every well-formed tree gives that tree back |
| ParseProperties.PostfixRoundTrip | objectExpression.js:304-325 | parsing the postfix rendering of every well-formed tree gives that tree back |
| ParseProperties.PrefixFixed | objectExpression.js:287-290 | a fixed-arity loop over rendered operands reads each of them and stops right after the last |
| ParseProperties.PrefixVariadic | objectExpression.js:291-295 | the variadic loop over rendered operands followed by `)` reads exactly those operands |
| ParseProperties.PostfixOps | objectExpression.js:307-310 | the postfix loop over rendered operands followed by an operator reads exactly those operands |
| ParseProperties.FixedStops | objectExpression.js:288-289 | a fixed-arity loop that meets `)` or the end of input fails with that unexpected token |
| ParseProperties.TokenizeConcat | objectExpression.js:250-254 | tokenizing two space-only texts joined by a space gives the first's tokens followed by the second's |
| ParseProperties.PrefixTrailing | objectExpression.js:331-333 | a prefix rendering followed by a space and any text holding at least one token fails with the not-wrapped error |
| ParseProperties.PostfixTrailing | objectExpression.js:331-333 | a postfix rendering followed by a space and any text holding at least one token fails with the not-wrapped error |
| ParseProperties.EmptyInput | objectExpression.js:256-267 | empty input fails with an unexpected `undefined` token, for both parsers |
| ParseProperties.PrefixTooFewOperands | objectExpression.js:287-290 | too few operands before `)` or the end fails with that unexpected token, not end-of-expression |
| ParseProperties.PrefixUnclosed | objectExpression.js:291-297 | all operands but no `)` fails with end-of-expression, or with the token found in its place |
| ParseProperties.PrefixNoOperator | objectExpression.js:280-283 | a `(` followed by a non-operator fails with that token |
| ParseProperties.BareOperator | objectExpression.js:256-268 | an operator sign where an element is expected fails with that token, for both parsers |
| ParseProperties.PostfixWrongCount | objectExpression.js:312-316 | a fixed-arity postfix operator after the wrong number of operands reports the declared and actual counts |
| ParseProperties.PostfixUnclosed | objectExpression.js:318-320 | a postfix operator not followed by `)` fails with end-of-expression or with the token found |
| ParseProperties.PostfixNoOperator | objectExpression.js:307-312 | postfix operands that run to the end of input with no operator fail at the registry lookup |
| StackParsing.SpliceTop | objectExpression.js:399-402 | `splice(len - n, n)` removes a suffix of the stack: `n` entries when there are that many, none for a variadic operator, the host-clamped count on underflow |
| StackParsing.StackStep | objectExpression.js:397-410 | one turn of the loop leaves at least one entry and adds at most one |
| StackParsing.RunLeavesEntries | objectExpression.js:396-411 | after at least one token the stack is never empty |
| StackParsing.StackParse | objectExpression.js:392-413 | `parse` returns `undefined` exactly when the input holds no token |
| StackParsing.ParseStack | objectExpression.js:392-413 | the method, with its loop over the tokens, returns exactly `StackParse` |
| StackParsing.OperatorTakesTop | objectExpression.js:397-404 | with enough entries, an operator replaces the top `arity` entries by its node over them, in order |
| StackParsing.VariadicTakesNothing | objectExpression.js:397-404 | a variadic operator takes no entries and pushes an empty node |
| StackParsing.OperatorUnderflow | objectExpression.js:397-404 | on too short a stack an operator hands its builder the host-clamped suffix of it and keeps the rest below |
| StackParsing.NamedUnderflowPads | objectExpression.js:397-404 | through the builders at lines 227-231, `+ - * / negate` on too short a stack take all of it and push one node of full arity ending in `undefined`, which is not stack-shaped |
| StackParsing.AddUnderflow | objectExpression.js:397-404 | with the builder at line 227, `x +` leaves `Add(x, undefined)` |
| StackParsing.NegateUnderflow | objectExpression.js:397-404 | with the builder at line 231, a lone `negate` leaves `Negate(undefined)` |
| StackParsing.DistanceUnderflow | objectExpression.js:397-404 | with the rest-parameter builder at line 239, `x y distance3` leaves `x` and `distance3(y)` |
| StackParsing.VariablePushed | objectExpression.js:406-409 | a variable name pushes its variable |
| StackParsing.OtherTokenPushed | objectExpression.js:410 | any other token pushes `Number(token)`: its integer, or NaN |
| StackParsing.ConstPushed | objectExpression.js:410 | a constant's literal pushes that constant |
| StackParsing.StackRunConcat | objectExpression.js:396-411 | reading `a + b` is reading `a`, then `b` from the resulting stack |
| StackParsing.PushesTree | objectExpression.js:396-411 | reading a tree's `toString` tokens pushes exactly that tree and leaves the rest of the stack alone |
| StackParsing.StackRoundTrip | objectExpression.js:392-413 | `parse(t.toString())` gives `t` back for every tree whose variadic nodes are empty |
| StackParsing.LastTreeWins | objectExpression.js:411-412 | two renderings in a row leave both trees on the stack, and `pop` returns the second |

## Left out

- `evaluate` and every numeric operation (objectExpression.js:5-7, 27-36, 59-62, 144-146, 166, 341-343, 377): floating point, `Math.exp`, `Math.log` and `Math.sqrt` are not modelled. Properties stated as "evaluates to" are therefore stated on trees.
- Number syntax: `isNaN` and `Number` accept more than decimal integers (`1.5`, `1e3`, `0x10`, `+1`, `Infinity`, ` `). The model reads only an optional minus sign and decimal digits. Every other token is non-numeric, so `parseElement` rejects it and `parse` pushes `NaN`.
- Parsing.Element, Parsing.Parse: because of that narrower number syntax, the bracket parsers reject fractional and exponent literals that the source accepts.
- The message text of every error, the seven-token preview of the remaining input (objectExpression.js:177-224) and the error `name` strings are left out. This includes the copy of `"AnotherTokenExpectedError"` as `UnexpectedTokenError`'s name. Errors are compared by kind and fields only.
- Prototype chains and constructor plumbing (`Object.create`, `buildAbstractExpression`'s closures, `name` fields) are replaced by the closed `Expr` datatype.
- Object identity: the distance rule divides by `this`, the node itself. The model uses the node as a value, which is equal to it.
- Differentiation.Diff: defined only on trees whose fixed-arity nodes are full and whose `sumexp`/`lse` nodes have at least one operand.
  - On a node holding an `undefined` operand (only `parse` builds one), the source's `_arg.diff` throws a `TypeError` (objectExpression.js:68).
  - On an empty `sumexp`/`lse` node, the source does not throw. It returns `Multiply(Sumexp(undefined), undefined)` (objectExpression.js:149-152), or that over `Sumexp()` for `lse`. That tree fails only later, when it is rendered, evaluated or differentiated.
  - The model leaves both cases out.
- Rendering.ToString, Rendering.Prefix, Rendering.Postfix: the source throws a `TypeError` when a node holds an `undefined` operand. The model writes that operand as the word `undefined` instead.
- Expressions.NumToString, Expressions.ParseNum, Parsing.Element, StackParsing.StackStep: constants are unbounded integers, but the host's numbers are doubles. The model does not capture that rounding, or the exponent form of large or small values.
  - `Number("9007199254740993")` is `9007199254740992`, so the source reads that literal as a different constant (objectExpression.js:262, 410).
  - `"" + 1e21` is `"1e+21"` (objectExpression.js:9), so the source renders `Const(10^21)` differently.
- The mutable token array is modelled as a cursor into an immutable sequence. The consumption order is the same, but the array's left-over contents after a throw are not modelled.
- The `TypeError` that `operators.get(token)[0]` raises when postfix input ends before an operator (objectExpression.js:312) is modelled as the error `MissingOperator`.
- The error lemmas in `ParseProperties` describe inputs at the token level: renderings of operands followed by chosen tokens. They are not stated on raw strings.
- `functionalExpression.js`, the functional variant of the same operations, is not part of this model.
