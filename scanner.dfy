/** The number scanner: a number token is a maximal run of digits and
    commas, read with a cursor that the caller continues from. */
module Scanner {
  import opened Operators

  /** Characters a number token is made of (a `.` has become `,` by now). */
  predicate IsNumberChar(c: char)
  {
    IsDigit(c) || c == ','
  }

  /** End (exclusive) of the run of number characters that starts at `p`:
      every character before it belongs to the run, the one at it does not. */
  function RunEnd(s: string, p: nat): (e: nat)
    requires p <= |s|
    ensures p <= e <= |s|
    ensures forall k :: p <= k < e ==> IsNumberChar(s[k])
    ensures e < |s| ==> !IsNumberChar(s[e])
    decreases |s| - p
  {
    if p < |s| && IsNumberChar(s[p]) then RunEnd(s, p + 1) else p
  }

  /** The run end is the only index with those two properties. */
  lemma {:induction false} RunEndUnique(s: string, p: nat, e: nat)
    requires p <= e <= |s|
    requires forall k :: p <= k < e ==> IsNumberChar(s[k])
    requires e < |s| ==> !IsNumberChar(s[e])
    ensures RunEnd(s, p) == e
    decreases e - p
  {
    if p < e {
      RunEndUnique(s, p + 1, e);
    }
  }

  /** The cursor the scanner leaves behind: on the last character it consumed
      when the run stops before the end, at the length when it reaches the end. */
  function CursorAfterRun(s: string, p: nat): (c: int)
    requires p <= |s|
    ensures p - 1 <= c <= |s|
    ensures forall k :: p <= k <= c && k < |s| ==> IsNumberChar(s[k])
    ensures c == |s| || (c + 1 < |s| && !IsNumberChar(s[c + 1]))
  {
    var e := RunEnd(s, p);
    if e < |s| then e - 1 else |s|
  }

  /** Reads the number that starts at `position` and returns it with the
      updated cursor (the `ref` argument of the original): the loop moves the
      cursor forward over number characters and steps back once when it meets
      any other character. */
  method GetNumberString(expression: string, position: int) returns (number: string, position': int)
    requires 0 <= position <= |expression|
    ensures number == expression[position..RunEnd(expression, position)]
    ensures position' == CursorAfterRun(expression, position)
    ensures forall k :: 0 <= k < |number| ==> IsNumberChar(number[k])
    ensures position < |expression| && IsDigit(expression[position]) ==>
              |number| > 0 && position <= position' &&
              (position' + 1 == RunEnd(expression, position) || position' == |expression|)
  {
    number := "";
    position' := position;
    while position' < |expression|
      invariant position <= position' <= RunEnd(expression, position)
      invariant number == expression[position..position']
      decreases |expression| - position'
    {
      var character := expression[position'];
      if IsDigit(character) || character == ',' {
        number := number + [character];
      } else {
        position' := position' - 1;
        break;
      }
      position' := position' + 1;
    }
  }
}
