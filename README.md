# RpnParser in Dafny

A model of `RpnParser`, the infix to Reverse Polish Notation converter of the
PolishNotation project, with proofs about it. `Parse` does three things in order:

1. It validates the expression: the input must be non-empty, use only allowed
   characters, and have balanced brackets.
2. It normalises the expression: spaces are removed and `.` becomes `,`.
3. It runs a shunting-yard scan over an explicit operator stack, with a
   unary-minus rule based on the previous character, and then drains the stack.

The model follows the code literally. That includes its exact output format:
- A number is followed by a space.
- A pop made in front of a push is followed by a space.
- Pops at `)` and pops of the final drain are not, so `(1+2)/(-3*4)` yields
  `1 2 +3 ~ 4 */`.

Modules, one per file:

- `Operators` (`operators.dfy`): the priority table, `IsOperator`, `GetOperatorPriority` and digits.
- `Validation` (`validation.dfy`): the character check and the bracket check as loop methods, proved against the predicates `AllAllowed` and `Balanced`; `ValidateExpression` puts the plain emptiness test in front of them.
- `Normalisation` (`normalisation.dfy`): `GetInfixExpression` as two replacement functions.
- `Scanner` (`scanner.dfy`): `GetNumberString` as a loop method, proved against `RunEnd`. It keeps the cursor convention of the `ref` argument (`CursorAfterRun`): the cursor is left on the last digit or comma read, at the length of the string when the run reaches the end, and one before the start when the start is not a digit or comma.
- `Conversion` (`conversion.dfy`): one iteration of the main loop of `Parse` as the function `Step`, with `NextIndex` for the cursor.
  - `Run` and `Convert` give the whole scan plus the drain.
  - `Invariant` is the loop invariant. It says the stack holds operators ordered by priority, one `(` per bracket still open, and that no bracket has been written to the output.
  - Lemmas show that every step preserves the invariant.
- `RpnParser` (`parser.dfy`): `Parse` as an imperative method with a stack and an output buffer, proved equal to `Convert` of the normalised input. The popping loops are the methods `PopToOpenBracket` and `PopHigherOrEqual`.
- `Examples` (`examples.dfy`): the cases of the project's unit tests.
  - Each input is fixed by its characters (`<Name>Input`), and the scan is worked through one loop iteration at a time (`<Name>At<i>`, then `<Name>Trace`).
  - `<Name>Example` shows that the input passes validation and gives `Convert` of its normal form. By the contract of `RpnParser.Parse`, that is the `Success` value `Parse` returns.
  - `<Name>Literal` states the same for the literal string of the test.

The allowed set in `IsExpressionValid` (PolishNotation/RPNParser.cs:94) has no
space. So any expression with a space fails with `InvalidCharacter`
(`Validation.SpaceIsRejected`), and the space removal in `GetInfixExpression`
never changes a validated input. The model keeps that set as written.

The unary-minus rule is kept as written: a `-` becomes `~` only when it is at
index 0, or when the index is above 1 and the previous character is in the
priority table. So a `-` at index 1 is always binary, e.g. `(-1)` gives `1 -`
(`Examples.MinusAfterFirstBracketExample`).

Inputs and outputs:
- A `null` string is the empty sequence.
- A thrown `ArgumentException` is the `Failure` case of the `Result` datatype; its message is the `ValidationError` constructor.

## Model

| member | source | states |
|---|---|---|
| Operators.OperatorSymbols | PolishNotation/RPNParser.cs:7-16 | a character is an operator exactly when it is one of `( + - * / ^ ~`; `)` is not an operator |
| Operators.IsOperator | PolishNotation/RPNParser.cs:66-69 | no digit, no `,`, no `.` and no `)` is an operator |
| Operators.GetOperatorPriority | PolishNotation/RPNParser.cs:71-74 | a priority lies between 0 and 4; only `(` has 0 and only `~` has 4 |
| Operators.PriorityOrder | PolishNotation/RPNParser.cs:7-16 | `(` < `+` = `-` < `*` = `/` < `^` < `~` |
| Validation.IsExpressionValid | PolishNotation/RPNParser.cs:92-101 | returns true iff every character is in the allowed set |
| Validation.IsParenthesesBalanced | PolishNotation/RPNParser.cs:103-123 | returns true iff no prefix has more `)` than `(` and the totals are equal |
| Validation.ValidateExpression | PolishNotation/RPNParser.cs:82-90 | empty input gives `EmptyInput`; otherwise a bad character gives `InvalidCharacter`; otherwise unbalanced brackets give `UnbalancedParentheses`; the input passes iff it is non-empty, allowed and balanced |
| Validation.SpaceIsRejected | PolishNotation/RPNParser.cs:94 | an expression that contains a space fails the character check |
| Validation.EmptyPassesLaterChecks | PolishNotation/RPNParser.cs:84-85 | the empty string passes the character and bracket checks, so only the explicit emptiness test rejects it |
| Normalisation.RemoveSpaces | PolishNotation/RPNParser.cs:79 | the result has no space and keeps every other character as often as the input; input without a space is unchanged |
| Normalisation.RemoveSpacesAppend | PolishNotation/RPNParser.cs:79 | space removal of a concatenation is the concatenation of the space removals, so the kept characters stay in order |
| Normalisation.ReplaceDotsAppend | PolishNotation/RPNParser.cs:79 | dot replacement of a concatenation is the concatenation of the replacements |
| Normalisation.ReplaceDots | PolishNotation/RPNParser.cs:79 | same length; each `.` becomes `,` and every other character stays in place |
| Normalisation.GetInfixExpression | PolishNotation/RPNParser.cs:77-80 | the result has no space and no `.` and is no longer than the input; on input without a space each character stays in place, with `.` turned into `,` |
| Normalisation.NormalisationAppend | PolishNotation/RPNParser.cs:77-80 | the normal form of a concatenation is the concatenation of the normal forms, on any input including one with spaces |
| Normalisation.NormalisationOfChar | PolishNotation/RPNParser.cs:79 | a single space normalises to nothing, a `.` to `,`, any other character to itself |
| Normalisation.NormalisationKeepsPlain | PolishNotation/RPNParser.cs:77-80 | an expression with no space and no `.` is its own normal form |
| Normalisation.NormalisationIdempotent | PolishNotation/RPNParser.cs:77-80 | normalising twice is the same as normalising once |
| Normalisation.NormalisationPreservesValidity | PolishNotation/RPNParser.cs:20-21 | a validated expression normalises to a string of the same length that is still allowed and balanced |
| Normalisation.SameBracketsSameBalance | PolishNotation/RPNParser.cs:103-123 | strings with brackets at the same positions have the same bracket count |
| Scanner.RunEnd | PolishNotation/RPNParser.cs:128-141 | the run of digits and commas from `p` ends at the first other character, or at the end of the string |
| Scanner.CursorAfterRun | PolishNotation/RPNParser.cs:128-141 | the cursor lies between one before the start and the length; every index from the start up to it is a digit or comma; it is the length or the next character is not a digit or comma |
| Scanner.RunEndUnique | PolishNotation/RPNParser.cs:128-141 | any index with those two properties is the run end |
| Scanner.GetNumberString | PolishNotation/RPNParser.cs:125-144 | returns exactly the run of digits and commas from `position`; the cursor ends one before the run's end, or at the length when the run reaches the end; started on a digit, the number is non-empty and the cursor does not move backwards |
| Conversion.Reversed | PolishNotation/RPNParser.cs:61 | the drained segment has the stack's length and holds its entries in pop order: position `k` is the entry `k` places below the top |
| Conversion.SpacedPops | PolishNotation/RPNParser.cs:52-53 | twice the segment's length; every character is a space or a popped entry |
| Conversion.SpacedPopsAt | PolishNotation/RPNParser.cs:52-53 | the `k`-th pop, in pop order, is the entry `k` places below the top, followed by a space |
| Conversion.PopWhileHigher | PolishNotation/RPNParser.cs:52-53 | what is left of the stack is a prefix of it |
| Conversion.PopWhileHigherPriorities | PolishNotation/RPNParser.cs:52-53 | every popped entry has priority at least `p`; the entry left on top has priority below `p` |
| Conversion.PopWhileHigherOutput | PolishNotation/RPNParser.cs:52-53 | the popped entries are appended top first, each followed by a space |
| Conversion.PopToParen | PolishNotation/RPNParser.cs:41 | what is left of the stack is a prefix of it |
| Conversion.PopToParenStops | PolishNotation/RPNParser.cs:41 | no `(` is popped; the stack is left empty or with `(` on top |
| Conversion.PopToParenOutput | PolishNotation/RPNParser.cs:41 | the popped entries are appended top first, with no space |
| Conversion.EffectiveOperator | PolishNotation/RPNParser.cs:48-50 | the operator pushed is the character read, except that a `-` may become `~`; an operator stays an operator |
| Conversion.NextIndex | PolishNotation/RPNParser.cs:25-31 | the cursor always advances; on any character other than a digit it moves by one; after a number it lands just past the digit run, or one past the length when the run reaches the end |
| Conversion.Step | PolishNotation/RPNParser.cs:27-58 | every step keeps only operators on the stack and only appends to the output |
| Conversion.UnaryMinusRule | PolishNotation/RPNParser.cs:48-55 | after reading a `-` the stack is not empty, and its top is `~` exactly when the `-` is at index 0 or at an index above 1 right after an operator |
| Conversion.OnlyMinusIsRemapped | PolishNotation/RPNParser.cs:48-55 | any other operator except `(` is pushed as it is read, so a `+` is never treated as unary |
| Conversion.Run | PolishNotation/RPNParser.cs:25-61 | the rest of the scan and the drain only append to what is already written |
| Conversion.Convert | PolishNotation/RPNParser.cs:18-64 | the postfix form holds only characters of the input, spaces and `~` |
| Conversion.RunFromInput | PolishNotation/RPNParser.cs:25-61 | from a state whose stack and output hold only input characters, spaces and `~`, so does the final output |
| Conversion.StepFromInput | PolishNotation/RPNParser.cs:27-58 | one step writes and pushes only input characters, spaces and `~` |
| Conversion.CloseFromInput | PolishNotation/RPNParser.cs:39-43 | the loop of `)` moves only stack entries to the output |
| Conversion.OperatorFromInput | PolishNotation/RPNParser.cs:46-56 | after an operator the stack and the output still hold only input characters, spaces and `~`: the pops move stack entries and spaces, and the pushed operator is the character read or `~` |
| Conversion.RunKeepsBalance | PolishNotation/RPNParser.cs:31 | consuming a number leaves the bracket count of the consumed input unchanged |
| Conversion.StepPreservesInvariant | PolishNotation/RPNParser.cs:25-59 | on a balanced input each iteration keeps the loop invariant (operators ordered by priority, one `(` per open bracket, no bracket in the output); a `)` always finds a `(`, so the `Pop` after its loop never meets an empty stack |
| Conversion.CloseFindsOpen | PolishNotation/RPNParser.cs:41-42 | with a `(` on the stack, the loop of `)` stops at one, and removing it lowers the count by one and keeps the order |
| Conversion.DropOpen | PolishNotation/RPNParser.cs:42 | a stack with a `(` is not empty, and dropping a `(` from the top lowers the count by one |
| Conversion.ClosePopsEmitNoBrackets | PolishNotation/RPNParser.cs:41 | the loop of `)` writes no bracket to the output |
| Conversion.OperatorPushKeepsCount | PolishNotation/RPNParser.cs:52-55 | popping in front of an operator removes no `(`, and pushing the operator keeps the number of `(` |
| Conversion.OperatorPushKeepsOrder | PolishNotation/RPNParser.cs:52-55 | after the pops the operator lands on an entry of lower priority, so the stack stays ordered |
| Conversion.OperatorPopsEmitNoBrackets | PolishNotation/RPNParser.cs:52-53 | popping in front of an operator writes no bracket to the output |
| Conversion.RunEmitsNoBrackets | PolishNotation/RPNParser.cs:25-61 | from any state satisfying the invariant, the rest of the scan and the drain write no bracket |
| Conversion.ConvertEmitsNoBrackets | PolishNotation/RPNParser.cs:18-64 | the postfix form of a balanced expression contains no bracket |
| RpnParser.Parse | PolishNotation/RPNParser.cs:18-64 | the three validation failures in their order; for valid input, `Success` of `Convert` of the normalised input; a successful result never holds a bracket |
| RpnParser.ConvertInfix | PolishNotation/RPNParser.cs:22-63 | for a balanced expression, the stack/buffer loop and the drain compute `Convert` |
| RpnParser.PopToOpenBracket | PolishNotation/RPNParser.cs:41 | the popping loop of `)` computes `PopToParen` |
| RpnParser.PopHigherOrEqual | PolishNotation/RPNParser.cs:52-53 | the popping loop in front of a push computes `PopWhileHigher` at the operator's priority |
| Examples.BinaryOperatorExample | PolishNotationTests/Tests.cs:9-16 | `1+2` is valid and becomes `1 2 +` |
| Examples.UnaryMinusExample | PolishNotationTests/Tests.cs:18-26 | `-1+2` is valid and becomes `1 ~ 2 +` |
| Examples.BracketsExample | PolishNotationTests/Tests.cs:28-36 | `(1+2)/(-3*4)` is valid and becomes `1 2 +3 ~ 4 */` |
| Examples.DuplicatePlusExample | PolishNotationTests/Tests.cs:38-45 | `1++2` is valid and becomes `1 + 2 +` |
| Examples.NestedBracketsExample | PolishNotationTests/Tests.cs:47-55 | `((1+2)-3)^4/5` is valid and becomes `1 2 +3 -4 ^ 5 /` |
| Examples.UnaryPlusExample | PolishNotationTests/Tests.cs:57-65 | `+1+2` is valid and becomes `1 + 2 +` |
| Examples.UnpairedBracketsExample | PolishNotationTests/Tests.cs:76-83 | `(1+2-4*3))` passes the character check and fails the bracket check, so `Parse` reports `UnbalancedParentheses` |
| Examples.MinusAfterFirstBracketExample | PolishNotation/RPNParser.cs:50 | a `-` at index 1 stays binary even after `(`: `(-1)` becomes `1 -` |
| Examples.BinaryOperatorLiteral | PolishNotationTests/Tests.cs:9-16 | `ParsesTo("1+2", "1 2 +")` on the literal |
| Examples.UnaryMinusLiteral | PolishNotationTests/Tests.cs:18-26 | `ParsesTo("-1+2", "1 ~ 2 +")` on the literal |
| Examples.BracketsLiteral | PolishNotationTests/Tests.cs:28-36 | `ParsesTo("(1+2)/(-3*4)", "1 2 +3 ~ 4 */")` on the literal |
| Examples.DuplicatePlusLiteral | PolishNotationTests/Tests.cs:38-45 | `ParsesTo("1++2", "1 + 2 +")` on the literal |
| Examples.NestedBracketsLiteral | PolishNotationTests/Tests.cs:47-55 | `ParsesTo("((1+2)-3)^4/5", "1 2 +3 -4 ^ 5 /")` on the literal |
| Examples.UnaryPlusLiteral | PolishNotationTests/Tests.cs:57-65 | `ParsesTo("+1+2", "1 + 2 +")` on the literal |
| Examples.MinusAfterFirstBracketLiteral | PolishNotation/RPNParser.cs:50 | `ParsesTo("(-1)", "1 -")` on the literal |
| Examples.UnpairedBracketsLiteral | PolishNotationTests/Tests.cs:76-83 | the literal `(1+2-4*3))` is non-empty and allowed but not balanced |
| Examples.BalancedByCounts | PolishNotation/RPNParser.cs:103-123 | a running count that starts at zero, follows the brackets, never goes negative and ends at zero shows the string is balanced |

## Left out

- Exceptions are results: the `ArgumentException` of each validation failure is `Failure` with a `ValidationError`. The message texts are not modelled.
- The `InvalidOperationException` that `stack.Pop()` at line 42 would throw on an empty stack is proved unreachable after validation. `Conversion.Step` takes a defensive branch for it that valid input never reaches.
- `EmptyExpressionTest` (PolishNotationTests/Tests.cs:67-74) has no lemma of its own. It is the first `ensures` of `RpnParser.Parse`.
- `char.IsDigit` also accepts non-ASCII decimal digits. The model uses `'0'..'9'`, which is the same on every input that passes validation.
- `StringBuilder`, `Stack<char>` and `Dictionary<char,int>` are modelled as a string, a sequence whose last element is the top, and a map.
- `RpnParser` has no mutable fields, only a read-only table, so it is a module of methods rather than a class.
- The two popping loops of `Parse` are separate methods (`PopToOpenBracket`, `PopHigherOrEqual`), and its main loop is the method `ConvertInfix`. They run the same loops in the same order.
- `i` and `position` are C# `int` values. The model uses unbounded integers; a string's length always fits in an `int`, so this cannot overflow.
- The RPN output is never evaluated, and the original does not evaluate it either.
