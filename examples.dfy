/** The cases of the unit tests of the original project, worked through the
    model. Each scan is proved one loop iteration at a time on a string that
    has the example's characters (`<Name>Input`); `<Name>Literal` applies it
    to the literal string, and `ParsesTo` fixes what `Parse` returns by its
    contract. */
module Examples {
  import opened Operators
  import opened Validation
  import opened Normalisation
  import opened Scanner
  import opened Conversion

  /** The input passes validation and `Parse` returns `Success(output)`. */
  predicate ParsesTo(expression: string, output: string)
  {
    && |expression| > 0 && AllAllowed(expression) && Balanced(expression)
    && Convert(GetInfixExpression(expression)) == output
  }

  /** One iteration of the scan, as `Run` takes it. */
  lemma RunUnfold(s: string, i: nat, st: State)
    requires i < |s| && AllOperators(st.stack)
    ensures Run(s, i, st) == Run(s, NextIndex(s, i), Step(s, i, st))
  {
  }

  // ------------------------------------------------------------------------

  /** A string holding exactly the characters of `"1+2"`. */
  predicate BinaryOperatorInput(s: string)
  {
    && |s| == 3
    && s[0] == '1'
    && s[1] == '+'
    && s[2] == '2'
  }

  lemma BinaryOperatorAt0(s: string)
    requires BinaryOperatorInput(s)
    ensures NextIndex(s, 0) == 1 && Step(s, 0, State([], "")) == State([], "1 ")
  {
    RunEndUnique(s, 0, 1);
  }

  lemma BinaryOperatorAt1(s: string)
    requires BinaryOperatorInput(s)
    ensures NextIndex(s, 1) == 2 && Step(s, 1, State([], "1 ")) == State("+", "1 ")
  {
  }

  lemma BinaryOperatorAt2(s: string)
    requires BinaryOperatorInput(s)
    ensures NextIndex(s, 2) == 4 && Step(s, 2, State("+", "1 ")) == State("+", "1 2 ")
  {
    RunEndUnique(s, 2, 3);
  }

  /** The scan of `"1+2"`: a binary operator follows both of its operands. */
  lemma BinaryOperatorTrace(s: string)
    requires BinaryOperatorInput(s)
    ensures Convert(s) == "1 2 +"
  {
    BinaryOperatorAt0(s);
    RunUnfold(s, 0, State([], ""));
    BinaryOperatorAt1(s);
    RunUnfold(s, 1, State([], "1 "));
    BinaryOperatorAt2(s);
    RunUnfold(s, 2, State("+", "1 "));
  }

  /** `BinaryOperatorTest`: what `Parse` returns for this input. */
  lemma BinaryOperatorExample(s: string)
    requires BinaryOperatorInput(s)
    ensures ParsesTo(s, "1 2 +")
  {
    BinaryOperatorTrace(s);
    NormalisationKeepsPlain(s);
    BalancedByCounts(s, [0, 0, 0, 0]);
  }

  // ------------------------------------------------------------------------

  /** A string holding exactly the characters of `"-1+2"`. */
  predicate UnaryMinusInput(s: string)
  {
    && |s| == 4
    && s[0] == '-'
    && s[1] == '1'
    && s[2] == '+'
    && s[3] == '2'
  }

  lemma UnaryMinusAt0(s: string)
    requires UnaryMinusInput(s)
    ensures NextIndex(s, 0) == 1 && Step(s, 0, State([], "")) == State("~", "")
  {
  }

  lemma UnaryMinusAt1(s: string)
    requires UnaryMinusInput(s)
    ensures NextIndex(s, 1) == 2 && Step(s, 1, State("~", "")) == State("~", "1 ")
  {
    RunEndUnique(s, 1, 2);
  }

  lemma UnaryMinusAt2(s: string)
    requires UnaryMinusInput(s)
    ensures NextIndex(s, 2) == 3 && Step(s, 2, State("~", "1 ")) == State("+", "1 ~ ")
  {
  }

  lemma UnaryMinusAt3(s: string)
    requires UnaryMinusInput(s)
    ensures NextIndex(s, 3) == 5 && Step(s, 3, State("+", "1 ~ ")) == State("+", "1 ~ 2 ")
  {
    RunEndUnique(s, 3, 4);
  }

  /** The scan of `"-1+2"`: a leading `-` becomes the unary `~`. */
  lemma UnaryMinusTrace(s: string)
    requires UnaryMinusInput(s)
    ensures Convert(s) == "1 ~ 2 +"
  {
    UnaryMinusAt0(s);
    RunUnfold(s, 0, State([], ""));
    UnaryMinusAt1(s);
    RunUnfold(s, 1, State("~", ""));
    UnaryMinusAt2(s);
    RunUnfold(s, 2, State("~", "1 "));
    UnaryMinusAt3(s);
    RunUnfold(s, 3, State("+", "1 ~ "));
  }

  /** `UnaryMinusOperatorTest`: what `Parse` returns for this input. */
  lemma UnaryMinusExample(s: string)
    requires UnaryMinusInput(s)
    ensures ParsesTo(s, "1 ~ 2 +")
  {
    UnaryMinusTrace(s);
    NormalisationKeepsPlain(s);
    BalancedByCounts(s, [0, 0, 0, 0, 0]);
  }

  // ------------------------------------------------------------------------

  /** A string holding exactly the characters of `"(1+2)/(-3*4)"`. */
  predicate BracketsInput(s: string)
  {
    && |s| == 12
    && s[0] == '('
    && s[1] == '1'
    && s[2] == '+'
    && s[3] == '2'
    && s[4] == ')'
    && s[5] == '/'
    && s[6] == '('
    && s[7] == '-'
    && s[8] == '3'
    && s[9] == '*'
    && s[10] == '4'
    && s[11] == ')'
  }

  lemma BracketsAt0(s: string)
    requires BracketsInput(s)
    ensures NextIndex(s, 0) == 1 && Step(s, 0, State([], "")) == State("(", "")
  {
  }

  lemma BracketsAt1(s: string)
    requires BracketsInput(s)
    ensures NextIndex(s, 1) == 2 && Step(s, 1, State("(", "")) == State("(", "1 ")
  {
    RunEndUnique(s, 1, 2);
  }

  lemma BracketsAt2(s: string)
    requires BracketsInput(s)
    ensures NextIndex(s, 2) == 3 && Step(s, 2, State("(", "1 ")) == State("(+", "1 ")
  {
  }

  lemma BracketsAt3(s: string)
    requires BracketsInput(s)
    ensures NextIndex(s, 3) == 4 && Step(s, 3, State("(+", "1 ")) == State("(+", "1 2 ")
  {
    RunEndUnique(s, 3, 4);
  }

  lemma BracketsAt4(s: string)
    requires BracketsInput(s)
    ensures NextIndex(s, 4) == 5 && Step(s, 4, State("(+", "1 2 ")) == State([], "1 2 +")
  {
  }

  lemma BracketsAt5(s: string)
    requires BracketsInput(s)
    ensures NextIndex(s, 5) == 6 && Step(s, 5, State([], "1 2 +")) == State("/", "1 2 +")
  {
  }

  lemma BracketsAt6(s: string)
    requires BracketsInput(s)
    ensures NextIndex(s, 6) == 7 && Step(s, 6, State("/", "1 2 +")) == State("/(", "1 2 +")
  {
  }

  lemma BracketsAt7(s: string)
    requires BracketsInput(s)
    ensures NextIndex(s, 7) == 8 && Step(s, 7, State("/(", "1 2 +")) == State("/(~", "1 2 +")
  {
  }

  lemma BracketsAt8(s: string)
    requires BracketsInput(s)
    ensures NextIndex(s, 8) == 9 && Step(s, 8, State("/(~", "1 2 +")) == State("/(~", "1 2 +3 ")
  {
    RunEndUnique(s, 8, 9);
  }

  lemma BracketsAt9(s: string)
    requires BracketsInput(s)
    ensures NextIndex(s, 9) == 10 && Step(s, 9, State("/(~", "1 2 +3 ")) == State("/(*", "1 2 +3 ~ ")
  {
  }

  lemma BracketsAt10(s: string)
    requires BracketsInput(s)
    ensures NextIndex(s, 10) == 11 && Step(s, 10, State("/(*", "1 2 +3 ~ ")) == State("/(*", "1 2 +3 ~ 4 ")
  {
    RunEndUnique(s, 10, 11);
  }

  lemma BracketsAt11(s: string)
    requires BracketsInput(s)
    ensures NextIndex(s, 11) == 12 && Step(s, 11, State("/(*", "1 2 +3 ~ 4 ")) == State("/", "1 2 +3 ~ 4 *")
  {
  }

  /** The scan of `"(1+2)/(-3*4)"`: the `-` at index 7 follows `(` and becomes `~`; the pops of a closing bracket and of the final drain add no space. */
  lemma BracketsTrace(s: string)
    requires BracketsInput(s)
    ensures Convert(s) == "1 2 +3 ~ 4 */"
  {
    BracketsAt0(s);
    RunUnfold(s, 0, State([], ""));
    BracketsAt1(s);
    RunUnfold(s, 1, State("(", ""));
    BracketsAt2(s);
    RunUnfold(s, 2, State("(", "1 "));
    BracketsAt3(s);
    RunUnfold(s, 3, State("(+", "1 "));
    BracketsAt4(s);
    RunUnfold(s, 4, State("(+", "1 2 "));
    BracketsAt5(s);
    RunUnfold(s, 5, State([], "1 2 +"));
    BracketsAt6(s);
    RunUnfold(s, 6, State("/", "1 2 +"));
    BracketsAt7(s);
    RunUnfold(s, 7, State("/(", "1 2 +"));
    BracketsAt8(s);
    RunUnfold(s, 8, State("/(~", "1 2 +"));
    BracketsAt9(s);
    RunUnfold(s, 9, State("/(~", "1 2 +3 "));
    BracketsAt10(s);
    RunUnfold(s, 10, State("/(*", "1 2 +3 ~ "));
    BracketsAt11(s);
    RunUnfold(s, 11, State("/(*", "1 2 +3 ~ 4 "));
  }

  /** `BracketsTest`: what `Parse` returns for this input. */
  lemma BracketsExample(s: string)
    requires BracketsInput(s)
    ensures ParsesTo(s, "1 2 +3 ~ 4 */")
  {
    BracketsTrace(s);
    NormalisationKeepsPlain(s);
    BalancedByCounts(s, [0, 1, 1, 1, 1, 0, 0, 1, 1, 1, 1, 1, 0]);
  }

  // ------------------------------------------------------------------------

  /** A string holding exactly the characters of `"1++2"`. */
  predicate DuplicatePlusInput(s: string)
  {
    && |s| == 4
    && s[0] == '1'
    && s[1] == '+'
    && s[2] == '+'
    && s[3] == '2'
  }

  lemma DuplicatePlusAt0(s: string)
    requires DuplicatePlusInput(s)
    ensures NextIndex(s, 0) == 1 && Step(s, 0, State([], "")) == State([], "1 ")
  {
    RunEndUnique(s, 0, 1);
  }

  lemma DuplicatePlusAt1(s: string)
    requires DuplicatePlusInput(s)
    ensures NextIndex(s, 1) == 2 && Step(s, 1, State([], "1 ")) == State("+", "1 ")
  {
  }

  lemma DuplicatePlusAt2(s: string)
    requires DuplicatePlusInput(s)
    ensures NextIndex(s, 2) == 3 && Step(s, 2, State("+", "1 ")) == State("+", "1 + ")
  {
  }

  lemma DuplicatePlusAt3(s: string)
    requires DuplicatePlusInput(s)
    ensures NextIndex(s, 3) == 5 && Step(s, 3, State("+", "1 + ")) == State("+", "1 + 2 ")
  {
    RunEndUnique(s, 3, 4);
  }

  /** The scan of `"1++2"`: the second `+` pops the first one, so both reach the output. */
  lemma DuplicatePlusTrace(s: string)
    requires DuplicatePlusInput(s)
    ensures Convert(s) == "1 + 2 +"
  {
    DuplicatePlusAt0(s);
    RunUnfold(s, 0, State([], ""));
    DuplicatePlusAt1(s);
    RunUnfold(s, 1, State([], "1 "));
    DuplicatePlusAt2(s);
    RunUnfold(s, 2, State("+", "1 "));
    DuplicatePlusAt3(s);
    RunUnfold(s, 3, State("+", "1 + "));
  }

  /** `DuplicatePlusTest`: what `Parse` returns for this input. */
  lemma DuplicatePlusExample(s: string)
    requires DuplicatePlusInput(s)
    ensures ParsesTo(s, "1 + 2 +")
  {
    DuplicatePlusTrace(s);
    NormalisationKeepsPlain(s);
    BalancedByCounts(s, [0, 0, 0, 0, 0]);
  }

  // ------------------------------------------------------------------------

  /** A string holding exactly the characters of `"((1+2)-3)^4/5"`. */
  predicate NestedBracketsInput(s: string)
  {
    && |s| == 13
    && s[0] == '('
    && s[1] == '('
    && s[2] == '1'
    && s[3] == '+'
    && s[4] == '2'
    && s[5] == ')'
    && s[6] == '-'
    && s[7] == '3'
    && s[8] == ')'
    && s[9] == '^'
    && s[10] == '4'
    && s[11] == '/'
    && s[12] == '5'
  }

  lemma NestedBracketsAt0(s: string)
    requires NestedBracketsInput(s)
    ensures NextIndex(s, 0) == 1 && Step(s, 0, State([], "")) == State("(", "")
  {
  }

  lemma NestedBracketsAt1(s: string)
    requires NestedBracketsInput(s)
    ensures NextIndex(s, 1) == 2 && Step(s, 1, State("(", "")) == State("((", "")
  {
  }

  lemma NestedBracketsAt2(s: string)
    requires NestedBracketsInput(s)
    ensures NextIndex(s, 2) == 3 && Step(s, 2, State("((", "")) == State("((", "1 ")
  {
    RunEndUnique(s, 2, 3);
  }

  lemma NestedBracketsAt3(s: string)
    requires NestedBracketsInput(s)
    ensures NextIndex(s, 3) == 4 && Step(s, 3, State("((", "1 ")) == State("((+", "1 ")
  {
  }

  lemma NestedBracketsAt4(s: string)
    requires NestedBracketsInput(s)
    ensures NextIndex(s, 4) == 5 && Step(s, 4, State("((+", "1 ")) == State("((+", "1 2 ")
  {
    RunEndUnique(s, 4, 5);
  }

  lemma NestedBracketsAt5(s: string)
    requires NestedBracketsInput(s)
    ensures NextIndex(s, 5) == 6 && Step(s, 5, State("((+", "1 2 ")) == State("(", "1 2 +")
  {
  }

  lemma NestedBracketsAt6(s: string)
    requires NestedBracketsInput(s)
    ensures NextIndex(s, 6) == 7 && Step(s, 6, State("(", "1 2 +")) == State("(-", "1 2 +")
  {
  }

  lemma NestedBracketsAt7(s: string)
    requires NestedBracketsInput(s)
    ensures NextIndex(s, 7) == 8 && Step(s, 7, State("(-", "1 2 +")) == State("(-", "1 2 +3 ")
  {
    RunEndUnique(s, 7, 8);
  }

  lemma NestedBracketsAt8(s: string)
    requires NestedBracketsInput(s)
    ensures NextIndex(s, 8) == 9 && Step(s, 8, State("(-", "1 2 +3 ")) == State([], "1 2 +3 -")
  {
  }

  lemma NestedBracketsAt9(s: string)
    requires NestedBracketsInput(s)
    ensures NextIndex(s, 9) == 10 && Step(s, 9, State([], "1 2 +3 -")) == State("^", "1 2 +3 -")
  {
  }

  lemma NestedBracketsAt10(s: string)
    requires NestedBracketsInput(s)
    ensures NextIndex(s, 10) == 11 && Step(s, 10, State("^", "1 2 +3 -")) == State("^", "1 2 +3 -4 ")
  {
    RunEndUnique(s, 10, 11);
  }

  lemma NestedBracketsAt11(s: string)
    requires NestedBracketsInput(s)
    ensures NextIndex(s, 11) == 12 && Step(s, 11, State("^", "1 2 +3 -4 ")) == State("/", "1 2 +3 -4 ^ ")
  {
  }

  lemma NestedBracketsAt12(s: string)
    requires NestedBracketsInput(s)
    ensures NextIndex(s, 12) == 14 && Step(s, 12, State("/", "1 2 +3 -4 ^ ")) == State("/", "1 2 +3 -4 ^ 5 ")
  {
    RunEndUnique(s, 12, 13);
  }

  /** The scan of `"((1+2)-3)^4/5"`: the `-` at index 6 follows `)` and stays binary; `/` pops the higher `^` with a space. */
  lemma NestedBracketsTrace(s: string)
    requires NestedBracketsInput(s)
    ensures Convert(s) == "1 2 +3 -4 ^ 5 /"
  {
    NestedBracketsAt0(s);
    RunUnfold(s, 0, State([], ""));
    NestedBracketsAt1(s);
    RunUnfold(s, 1, State("(", ""));
    NestedBracketsAt2(s);
    RunUnfold(s, 2, State("((", ""));
    NestedBracketsAt3(s);
    RunUnfold(s, 3, State("((", "1 "));
    NestedBracketsAt4(s);
    RunUnfold(s, 4, State("((+", "1 "));
    NestedBracketsAt5(s);
    RunUnfold(s, 5, State("((+", "1 2 "));
    NestedBracketsAt6(s);
    RunUnfold(s, 6, State("(", "1 2 +"));
    NestedBracketsAt7(s);
    RunUnfold(s, 7, State("(-", "1 2 +"));
    NestedBracketsAt8(s);
    RunUnfold(s, 8, State("(-", "1 2 +3 "));
    NestedBracketsAt9(s);
    RunUnfold(s, 9, State([], "1 2 +3 -"));
    NestedBracketsAt10(s);
    RunUnfold(s, 10, State("^", "1 2 +3 -"));
    NestedBracketsAt11(s);
    RunUnfold(s, 11, State("^", "1 2 +3 -4 "));
    NestedBracketsAt12(s);
    RunUnfold(s, 12, State("/", "1 2 +3 -4 ^ "));
  }

  /** `NestedBracketsTest`: what `Parse` returns for this input. */
  lemma NestedBracketsExample(s: string)
    requires NestedBracketsInput(s)
    ensures ParsesTo(s, "1 2 +3 -4 ^ 5 /")
  {
    NestedBracketsTrace(s);
    NormalisationKeepsPlain(s);
    BalancedByCounts(s, [0, 1, 2, 2, 2, 2, 1, 1, 1, 0, 0, 0, 0, 0]);
  }

  // ------------------------------------------------------------------------

  /** A string holding exactly the characters of `"+1+2"`. */
  predicate UnaryPlusInput(s: string)
  {
    && |s| == 4
    && s[0] == '+'
    && s[1] == '1'
    && s[2] == '+'
    && s[3] == '2'
  }

  lemma UnaryPlusAt0(s: string)
    requires UnaryPlusInput(s)
    ensures NextIndex(s, 0) == 1 && Step(s, 0, State([], "")) == State("+", "")
  {
  }

  lemma UnaryPlusAt1(s: string)
    requires UnaryPlusInput(s)
    ensures NextIndex(s, 1) == 2 && Step(s, 1, State("+", "")) == State("+", "1 ")
  {
    RunEndUnique(s, 1, 2);
  }

  lemma UnaryPlusAt2(s: string)
    requires UnaryPlusInput(s)
    ensures NextIndex(s, 2) == 3 && Step(s, 2, State("+", "1 ")) == State("+", "1 + ")
  {
  }

  lemma UnaryPlusAt3(s: string)
    requires UnaryPlusInput(s)
    ensures NextIndex(s, 3) == 5 && Step(s, 3, State("+", "1 + ")) == State("+", "1 + 2 ")
  {
    RunEndUnique(s, 3, 4);
  }

  /** The scan of `"+1+2"`: a leading `+` has no unary form and is pushed as the binary `+`. */
  lemma UnaryPlusTrace(s: string)
    requires UnaryPlusInput(s)
    ensures Convert(s) == "1 + 2 +"
  {
    UnaryPlusAt0(s);
    RunUnfold(s, 0, State([], ""));
    UnaryPlusAt1(s);
    RunUnfold(s, 1, State("+", ""));
    UnaryPlusAt2(s);
    RunUnfold(s, 2, State("+", "1 "));
    UnaryPlusAt3(s);
    RunUnfold(s, 3, State("+", "1 + "));
  }

  /** `UnaryPlusTest`: what `Parse` returns for this input. */
  lemma UnaryPlusExample(s: string)
    requires UnaryPlusInput(s)
    ensures ParsesTo(s, "1 + 2 +")
  {
    UnaryPlusTrace(s);
    NormalisationKeepsPlain(s);
    BalancedByCounts(s, [0, 0, 0, 0, 0]);
  }

  // ------------------------------------------------------------------------

  /** A string holding exactly the characters of `"(-1)"`. */
  predicate MinusAfterFirstBracketInput(s: string)
  {
    && |s| == 4
    && s[0] == '('
    && s[1] == '-'
    && s[2] == '1'
    && s[3] == ')'
  }

  lemma MinusAfterFirstBracketAt0(s: string)
    requires MinusAfterFirstBracketInput(s)
    ensures NextIndex(s, 0) == 1 && Step(s, 0, State([], "")) == State("(", "")
  {
  }

  lemma MinusAfterFirstBracketAt1(s: string)
    requires MinusAfterFirstBracketInput(s)
    ensures NextIndex(s, 1) == 2 && Step(s, 1, State("(", "")) == State("(-", "")
  {
  }

  lemma MinusAfterFirstBracketAt2(s: string)
    requires MinusAfterFirstBracketInput(s)
    ensures NextIndex(s, 2) == 3 && Step(s, 2, State("(-", "")) == State("(-", "1 ")
  {
    RunEndUnique(s, 2, 3);
  }

  lemma MinusAfterFirstBracketAt3(s: string)
    requires MinusAfterFirstBracketInput(s)
    ensures NextIndex(s, 3) == 4 && Step(s, 3, State("(-", "1 ")) == State([], "1 -")
  {
  }

  /** The scan of `"(-1)"`: the `-` at index 1 follows `(` but stays binary, because the unary test asks for an index above one. */
  lemma MinusAfterFirstBracketTrace(s: string)
    requires MinusAfterFirstBracketInput(s)
    ensures Convert(s) == "1 -"
  {
    MinusAfterFirstBracketAt0(s);
    RunUnfold(s, 0, State([], ""));
    MinusAfterFirstBracketAt1(s);
    RunUnfold(s, 1, State("(", ""));
    MinusAfterFirstBracketAt2(s);
    RunUnfold(s, 2, State("(-", ""));
    MinusAfterFirstBracketAt3(s);
    RunUnfold(s, 3, State("(-", "1 "));
  }

  /** `Parse("(-1)")` returns `"1 -"`, not `"1 ~"`. */
  lemma MinusAfterFirstBracketExample(s: string)
    requires MinusAfterFirstBracketInput(s)
    ensures ParsesTo(s, "1 -")
  {
    MinusAfterFirstBracketTrace(s);
    NormalisationKeepsPlain(s);
    BalancedByCounts(s, [0, 1, 1, 1, 0]);
  }

  // ------------------------------------------------------------------------

  /** A string holding exactly the characters of `"(1+2-4*3))"`. */
  predicate UnpairedBracketsInput(s: string)
  {
    && |s| == 10
    && s[0] == '('
    && s[1] == '1'
    && s[2] == '+'
    && s[3] == '2'
    && s[4] == '-'
    && s[5] == '4'
    && s[6] == '*'
    && s[7] == '3'
    && s[8] == ')'
    && s[9] == ')'
  }

  /** `UnpairedBracketsTest`: the extra closing bracket makes `Parse`
      fail with `UnbalancedParentheses`. */
  lemma UnpairedBracketsExample(s: string)
    requires UnpairedBracketsInput(s)
    ensures |s| > 0 && AllAllowed(s) && !Balanced(s)
  {
    PrefixBalances(s, [0, 1, 1, 1, 1, 1, 1, 1, 1, 0, -1], |s|);
    assert s[..|s|] == s;
  }

  // ------------------------------------------------------------------------
  // The same cases on the literal strings of the tests. For the longer ones
  // the characters of the literal are checked in a lemma of their own.

  lemma BinaryOperatorLiteral()
    ensures ParsesTo("1+2", "1 2 +")
  {
    BinaryOperatorExample("1+2");
  }

  lemma UnaryMinusLiteral()
    ensures ParsesTo("-1+2", "1 ~ 2 +")
  {
    UnaryMinusExample("-1+2");
  }

  lemma BracketsLiteral()
    ensures ParsesTo("(1+2)/(-3*4)", "1 2 +3 ~ 4 */")
  {
    BracketsLiteralInput();
    BracketsExample("(1+2)/(-3*4)");
  }

  lemma BracketsLiteralInput()
    ensures BracketsInput("(1+2)/(-3*4)")
  {
  }

  lemma DuplicatePlusLiteral()
    ensures ParsesTo("1++2", "1 + 2 +")
  {
    DuplicatePlusExample("1++2");
  }

  lemma NestedBracketsLiteral()
    ensures ParsesTo("((1+2)-3)^4/5", "1 2 +3 -4 ^ 5 /")
  {
    NestedBracketsLiteralInput();
    NestedBracketsExample("((1+2)-3)^4/5");
  }

  lemma NestedBracketsLiteralInput()
    ensures NestedBracketsInput("((1+2)-3)^4/5")
  {
  }

  lemma UnaryPlusLiteral()
    ensures ParsesTo("+1+2", "1 + 2 +")
  {
    UnaryPlusExample("+1+2");
  }

  lemma MinusAfterFirstBracketLiteral()
    ensures ParsesTo("(-1)", "1 -")
  {
    MinusAfterFirstBracketExample("(-1)");
  }

  lemma UnpairedBracketsLiteral()
    ensures var e := "(1+2-4*3))"; |e| > 0 && AllAllowed(e) && !Balanced(e)
  {
    UnpairedBracketsExample("(1+2-4*3))");
  }

  // ------------------------------------------------------------------------

  /** A string is balanced when some running count starts at zero, moves by
      `Delta` at each character, never goes negative and ends at zero. */
  lemma BalancedByCounts(s: string, counts: seq<int>)
    requires |counts| == |s| + 1 && counts[0] == 0 && counts[|s|] == 0
    requires forall k :: 0 <= k < |s| ==> counts[k + 1] == counts[k] + Delta(s[k])
    requires forall k :: 0 <= k < |counts| ==> counts[k] >= 0
    ensures Balanced(s)
  {
    PrefixBalances(s, counts, |s|);
    assert s[..|s|] == s;
  }

  /** Such a count is the bracket count of every prefix. */
  lemma {:induction false} PrefixBalances(s: string, counts: seq<int>, n: nat)
    requires |counts| == |s| + 1 && counts[0] == 0 && n <= |s|
    requires forall k :: 0 <= k < |s| ==> counts[k + 1] == counts[k] + Delta(s[k])
    ensures forall k :: 0 <= k <= n ==> Balance(s[..k]) == counts[k]
  {
    if n > 0 {
      PrefixBalances(s, counts, n - 1);
      assert s[..n][..n - 1] == s[..n - 1];
    }
  }
}
