/** `Parse`: validation, normalisation and the shunting-yard loop over an
    explicit operator stack (top = last element) and an output buffer. */
module RpnParser {
  import opened Operators
  import opened Validation
  import opened Normalisation
  import opened Scanner
  import opened Conversion

  /** The postfix string, or the validation failure that stopped the call
      (the original throws an `ArgumentException` instead). */
  datatype Result = Success(value: string) | Failure(error: ValidationError)

  /** Converts an infix expression to its Reverse Polish form: the validation
      failures in their order, otherwise `Convert` of the normalised
      expression, which never holds a bracket. */
  method Parse(expression: string) returns (result: Result)
    ensures |expression| == 0 ==> result == Failure(EmptyInput)
    ensures |expression| > 0 && !AllAllowed(expression) ==> result == Failure(InvalidCharacter)
    ensures |expression| > 0 && AllAllowed(expression) && !Balanced(expression) ==>
              result == Failure(UnbalancedParentheses)
    ensures |expression| > 0 && AllAllowed(expression) && Balanced(expression) ==>
              result == Success(Convert(GetInfixExpression(expression)))
    ensures result.Success? ==> '(' !in result.value && ')' !in result.value
  {
    var outcome := ValidateExpression(expression);
    if outcome.Fail? {
      return Failure(outcome.error);
    }
    var infix := GetInfixExpression(expression);
    NormalisationPreservesValidity(expression);
    var output := ConvertInfix(infix);
    ConvertEmitsNoBrackets(infix);
    return Success(output);
  }

  /** The scan of `Parse` over the normalised expression: the main loop with
      its operator stack and output buffer, then the final drain. The `Pop`
      that discards the `(` matching a closing bracket is safe because the
      expression is balanced. */
  method ConvertInfix(infix: string) returns (output: string)
    requires Balanced(infix)
    ensures output == Convert(infix)
  {
    assert Scanned(infix, 0) == [];
    var stack: seq<char> := [];
    output := "";
    var i := 0;
    while i < |infix|
      invariant 0 <= i <= |infix| + 1
      invariant Invariant(infix, i, State(stack, output))
      invariant Run(infix, i, State(stack, output)) == Convert(infix)
      decreases |infix| + 1 - i
    {
      ghost var before := State(stack, output);
      ghost var i0 := i;
      var character := infix[i];
      if IsDigit(character) {
        var number, position := GetNumberString(infix, i);
        output := output + number + " ";
        i := position;
      } else if character == '(' {
        stack := stack + [character];
      } else if character == ')' {
        stack, output := PopToOpenBracket(stack, output);
        assert stack != [] by {
          StepPreservesInvariant(infix, i, before);
        }
        stack := Pop(stack);
      } else if IsOperator(character) {
        var op := character;
        if op == '-' && (i == 0 || (i > 1 && IsOperator(infix[i - 1]))) {
          op := '~';
        }
        stack, output := PopHigherOrEqual(stack, output, op);
        stack := stack + [op];
      }
      i := i + 1;
      assert i == NextIndex(infix, i0) && State(stack, output) == Step(infix, i0, before);
      StepPreservesInvariant(infix, i0, before);
    }
    while |stack| > 0
      invariant output + Reversed(stack) == Convert(infix)
      decreases |stack|
    {
      output := output + [Last(stack)];
      stack := Pop(stack);
    }
  }

  /** The popping loop of a closing bracket: pops and emits entries until the
      top is `(` or the stack is empty. */
  method PopToOpenBracket(stack: seq<char>, output: string) returns (stack': seq<char>, output': string)
    ensures State(stack', output') == PopToParen(State(stack, output))
  {
    stack', output' := stack, output;
    while |stack'| > 0 && Last(stack') != '('
      invariant PopToParen(State(stack', output')) == PopToParen(State(stack, output))
      decreases |stack'|
    {
      output' := output' + [Last(stack')];
      stack' := Pop(stack');
    }
  }

  /** The popping loop in front of a push: pops and emits, each followed by a
      space, every top whose priority is at least that of `op`. */
  method PopHigherOrEqual(stack: seq<char>, output: string, op: char) returns (stack': seq<char>, output': string)
    requires AllOperators(stack) && IsOperator(op)
    ensures State(stack', output') == PopWhileHigher(State(stack, output), GetOperatorPriority(op))
  {
    stack', output' := stack, output;
    while |stack'| > 0 && GetOperatorPriority(Last(stack')) >= GetOperatorPriority(op)
      invariant AllOperators(stack')
      invariant PopWhileHigher(State(stack', output'), GetOperatorPriority(op)) ==
                PopWhileHigher(State(stack, output), GetOperatorPriority(op))
      decreases |stack'|
    {
      output' := output' + [Last(stack'), ' '];
      stack' := Pop(stack');
    }
  }
}
