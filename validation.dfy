/** The validation pre-pass of the parser: emptiness, the character set and
    bracket balance, checked in that order. */
module Validation {

  /** The three failures the pre-pass reports (each an `ArgumentException`
      with its own message in the original). */
  datatype ValidationError = EmptyInput | InvalidCharacter | UnbalancedParentheses

  datatype Outcome = Pass | Fail(error: ValidationError)

  /** The only characters an expression may contain. There is no space. */
  const AllowedChars: string := "0123456789-+*/()^.,"

  predicate AllAllowed(s: string)
  {
    forall i :: 0 <= i < |s| ==> s[i] in AllowedChars
  }

  /** Contribution of one character to the running bracket count. */
  function Delta(c: char): int
  {
    if c == '(' then 1 else if c == ')' then -1 else 0
  }

  /** Bracket count of a whole string: opening minus closing brackets. */
  function Balance(s: string): int
  {
    if s == [] then 0 else Balance(s[..|s| - 1]) + Delta(s[|s| - 1])
  }

  /** The running count never goes negative on any prefix. */
  predicate NeverNegative(s: string)
  {
    forall k :: 0 <= k <= |s| ==> Balance(s[..k]) >= 0
  }

  /** Well-bracketed: no prefix closes more than it opens, and the totals agree. */
  predicate Balanced(s: string)
  {
    NeverNegative(s) && Balance(s) == 0
  }

  /** The character-set check: the first character outside the allowed set
      stops the scan with `false`. */
  method IsExpressionValid(expression: string) returns (valid: bool)
    ensures valid <==> AllAllowed(expression)
  {
    for i := 0 to |expression|
      invariant forall k :: 0 <= k < i ==> expression[k] in AllowedChars
    {
      if expression[i] !in AllowedChars {
        return false;
      }
    }
    return true;
  }

  /** The balance check: a running counter, with an early `false` as soon as a
      closing bracket takes it below zero, and a final comparison with zero. */
  method IsParenthesesBalanced(expression: string) returns (balanced: bool)
    ensures balanced <==> Balanced(expression)
  {
    var balance := 0;
    for i := 0 to |expression|
      invariant balance == Balance(expression[..i])
      invariant forall k :: 0 <= k <= i ==> Balance(expression[..k]) >= 0
    {
      assert expression[..i + 1][..i] == expression[..i];
      var t := expression[i];
      if t == '(' {
        balance := balance + 1;
      } else if t == ')' {
        balance := balance - 1;
        if balance < 0 {
          assert Balance(expression[..i + 1]) < 0;
          return false;
        }
      }
    }
    assert expression[..|expression|] == expression;
    return balance == 0;
  }

  /** The pre-pass: emptiness first, then the character set, then brackets;
      the first failing check decides the error. */
  method ValidateExpression(expression: string) returns (outcome: Outcome)
    ensures |expression| == 0 ==> outcome == Fail(EmptyInput)
    ensures |expression| > 0 && !AllAllowed(expression) ==> outcome == Fail(InvalidCharacter)
    ensures |expression| > 0 && AllAllowed(expression) && !Balanced(expression) ==>
              outcome == Fail(UnbalancedParentheses)
    ensures outcome == Pass <==> |expression| > 0 && AllAllowed(expression) && Balanced(expression)
  {
    if |expression| == 0 {
      return Fail(EmptyInput);
    }
    var valid := IsExpressionValid(expression);
    if !valid {
      return Fail(InvalidCharacter);
    }
    var balanced := IsParenthesesBalanced(expression);
    if !balanced {
      return Fail(UnbalancedParentheses);
    }
    return Pass;
  }

  /** No whitespace passes the character check, so an expression with a space
      is always rejected as invalid. */
  lemma SpaceIsRejected(s: string, k: nat)
    requires k < |s| && s[k] == ' '
    ensures !AllAllowed(s)
  {
  }

  /** The empty string passes both later checks, so only the explicit
      emptiness test rejects it. */
  lemma EmptyPassesLaterChecks()
    ensures AllAllowed("") && Balanced("")
  {
  }
}
