/** The shunting-yard scan of `Parse`, stated as functions: one loop
    iteration is `Step` (with `NextIndex` for the cursor), the whole scan plus
    the final drain is `Run`. The operator stack is a sequence whose last
    element is the top. */
module Conversion {
  import opened Operators
  import opened Validation
  import opened Scanner

  /** The two buffers of the loop: the operator stack and the output so far. */
  datatype State = State(stack: seq<char>, output: string)

  function Last(stack: seq<char>): char
    requires |stack| > 0
  {
    stack[|stack| - 1]
  }

  function Pop(stack: seq<char>): seq<char>
    requires |stack| > 0
  {
    stack[..|stack| - 1]
  }

  predicate AllOperators(stack: seq<char>)
  {
    forall k :: 0 <= k < |stack| ==> IsOperator(stack[k])
  }

  /** Elements of a stack segment in pop order (top first). */
  function Reversed(segment: seq<char>): (r: string)
    ensures |r| == |segment|
    ensures forall k :: 0 <= k < |r| ==> r[k] == segment[|segment| - 1 - k]
    ensures forall c :: c in r <==> c in segment
  {
    if segment == [] then []
    else
      assert segment == Pop(segment) + [Last(segment)];
      [Last(segment)] + Reversed(Pop(segment))
  }

  /** Elements of a stack segment in pop order, each followed by a space. */
  function SpacedPops(segment: seq<char>): (r: string)
    ensures |r| == 2 * |segment|
    ensures forall c :: c in r ==> c == ' ' || c in segment
  {
    if segment == [] then []
    else [Last(segment), ' '] + SpacedPops(Pop(segment))
  }

  /** The `k`-th popped entry (top first) is at position `2 * k`, and the
      space that follows it at `2 * k + 1`. */
  lemma {:induction false} SpacedPopsAt(segment: seq<char>, k: nat)
    requires k < |segment|
    ensures SpacedPops(segment)[2 * k] == segment[|segment| - 1 - k]
    ensures SpacedPops(segment)[2 * k + 1] == ' '
    decreases k
  {
    if k > 0 {
      SpacedPopsAt(Pop(segment), k - 1);
    }
  }

  /** The segment above height `n` is the one above `n` after a pop, plus the old top. */
  lemma SegmentAboveDrop(stack: seq<char>, n: nat)
    requires n < |stack|
    ensures Pop(stack)[..n] == stack[..n]
    ensures |stack[n..]| > 0
    ensures Pop(stack[n..]) == Pop(stack)[n..]
    ensures Last(stack[n..]) == Last(stack)
  {
  }

  /** The popping loop in front of a push: while the top has priority at least
      `p`, it goes to the output followed by a space. What is left is a prefix
      of the stack. */
  function PopWhileHigher(st: State, p: int): (r: State)
    requires AllOperators(st.stack)
    ensures |r.stack| <= |st.stack| && r.stack == st.stack[..|r.stack|]
    ensures st.output <= r.output
    decreases |st.stack|
  {
    if |st.stack| > 0 && GetOperatorPriority(Last(st.stack)) >= p then
      PopWhileHigher(State(Pop(st.stack), st.output + [Last(st.stack), ' ']), p)
    else st
  }

  /** Every popped entry has priority at least `p`, and the entry left on top
      (if any) has priority below `p`. */
  lemma {:induction false} PopWhileHigherPriorities(st: State, p: int)
    requires AllOperators(st.stack)
    ensures var n := |PopWhileHigher(st, p).stack|;
      forall k :: n <= k < |st.stack| ==> GetOperatorPriority(st.stack[k]) >= p
    ensures var n := |PopWhileHigher(st, p).stack|;
      n > 0 ==> GetOperatorPriority(st.stack[n - 1]) < p
    decreases |st.stack|
  {
    if |st.stack| > 0 && GetOperatorPriority(Last(st.stack)) >= p {
      PopWhileHigherPriorities(State(Pop(st.stack), st.output + [Last(st.stack), ' ']), p);
    }
  }

  /** The popped entries go to the output in pop order, each followed by a space. */
  lemma {:induction false} PopWhileHigherOutput(st: State, p: int)
    requires AllOperators(st.stack)
    ensures var r := PopWhileHigher(st, p);
      r.output == st.output + SpacedPops(st.stack[|r.stack|..])
    decreases |st.stack|
  {
    if |st.stack| > 0 && GetOperatorPriority(Last(st.stack)) >= p {
      PopWhileHigherOutput(State(Pop(st.stack), st.output + [Last(st.stack), ' ']), p);
      SegmentAboveDrop(st.stack, |PopWhileHigher(st, p).stack|);
    }
  }

  /** The popping loop of a closing bracket: everything above the nearest `(`
      goes to the output, with no space. What is left is a prefix of the stack. */
  function PopToParen(st: State): (r: State)
    ensures |r.stack| <= |st.stack| && r.stack == st.stack[..|r.stack|]
    ensures st.output <= r.output
    decreases |st.stack|
  {
    if |st.stack| > 0 && Last(st.stack) != '(' then
      PopToParen(State(Pop(st.stack), st.output + [Last(st.stack)]))
    else st
  }

  /** The popping loop of a closing bracket stops at the nearest `(` (or the
      bottom) and pops no `(`. */
  lemma {:induction false} PopToParenStops(st: State)
    ensures var r := PopToParen(st);
      && '(' !in st.stack[|r.stack|..]
      && (r.stack == [] || Last(r.stack) == '(')
    decreases |st.stack|
  {
    if |st.stack| > 0 && Last(st.stack) != '(' {
      PopToParenStops(State(Pop(st.stack), st.output + [Last(st.stack)]));
      var n := |PopToParen(st).stack|;
      SegmentAboveDrop(st.stack, n);
      assert st.stack[n..] == Pop(st.stack)[n..] + [Last(st.stack)];
    }
  }

  /** The popping loop of a closing bracket emits the popped entries in pop
      order, with no space. */
  lemma {:induction false} PopToParenOutput(st: State)
    ensures var r := PopToParen(st);
      r.output == st.output + Reversed(st.stack[|r.stack|..])
    decreases |st.stack|
  {
    if |st.stack| > 0 && Last(st.stack) != '(' {
      PopToParenOutput(State(Pop(st.stack), st.output + [Last(st.stack)]));
      SegmentAboveDrop(st.stack, |PopToParen(st).stack|);
    }
  }

  /** The operator pushed for the character at `i`: a `-` becomes the unary
      `~` when it is the first character, or when the index is above one and
      the preceding character is in the priority table. */
  function EffectiveOperator(s: string, i: nat): (op: char)
    requires i < |s|
    ensures op == s[i] || (s[i] == '-' && op == '~')
    ensures IsOperator(s[i]) ==> IsOperator(op)
  {
    if s[i] == '-' && (i == 0 || (i > 1 && IsOperator(s[i - 1]))) then '~' else s[i]
  }

  /** The index after one iteration of the main loop, including its `i++`: past
      the number run on a digit (one beyond the length when the run reaches
      the end), the next character otherwise. */
  function NextIndex(s: string, i: nat): (j: int)
    requires i < |s|
    ensures i < j <= |s| + 1
    ensures !IsDigit(s[i]) ==> j == i + 1
    ensures IsDigit(s[i]) ==> j == RunEnd(s, i) || (j == |s| + 1 && RunEnd(s, i) == |s|)
  {
    if IsDigit(s[i]) then CursorAfterRun(s, i) + 1 else i + 1
  }

  /** One iteration of the main loop on the buffers. A closing bracket that
      finds no `(` leaves the stack empty: this case never arises after
      validation (see `StepPreservesInvariant`). */
  function Step(s: string, i: nat, st: State): (r: State)
    requires i < |s| && AllOperators(st.stack)
    ensures AllOperators(r.stack)
    ensures st.output <= r.output
  {
    var c := s[i];
    if IsDigit(c) then
      State(st.stack, st.output + s[i..RunEnd(s, i)] + " ")
    else if c == '(' then
      State(st.stack + ['('], st.output)
    else if c == ')' then
      var r := PopToParen(st);
      State(if r.stack == [] then [] else Pop(r.stack), r.output)
    else if IsOperator(c) then
      var op := EffectiveOperator(s, i);
      var r := PopWhileHigher(st, GetOperatorPriority(op));
      State(r.stack + [op], r.output)
    else
      st
  }

  /** The scan from index `i` to the end, followed by the final drain, which
      appends the remaining stack in pop order with no spaces. */
  function Run(s: string, i: nat, st: State): (r: string)
    requires i <= |s| + 1 && AllOperators(st.stack)
    ensures st.output <= r
    decreases |s| + 1 - i
  {
    if i >= |s| then st.output + Reversed(st.stack) else Run(s, NextIndex(s, i), Step(s, i, st))
  }

  /** The postfix form of a normalised expression. */
  function Convert(s: string): (r: string)
    ensures FromInput(s, r)
  {
    RunFromInput(s, 0, State([], ""));
    Run(s, 0, State([], ""))
  }

  /** Every character is a space, the unary `~`, or a character of `s`. */
  predicate FromInput(s: string, t: seq<char>)
  {
    forall c :: c in t ==> c == ' ' || c == '~' || c in s
  }

  /** The conversion writes nothing but characters of the input, spaces and `~`. */
  lemma {:induction false} RunFromInput(s: string, i: nat, st: State)
    requires i <= |s| + 1 && AllOperators(st.stack)
    requires FromInput(s, st.stack) && FromInput(s, st.output)
    ensures FromInput(s, Run(s, i, st))
    decreases |s| + 1 - i
  {
    if i >= |s| {
      assert forall c :: c in Reversed(st.stack) ==> c in st.stack;
    } else {
      StepFromInput(s, i, st);
      RunFromInput(s, NextIndex(s, i), Step(s, i, st));
    }
  }

  lemma StepFromInput(s: string, i: nat, st: State)
    requires i < |s| && AllOperators(st.stack)
    requires FromInput(s, st.stack) && FromInput(s, st.output)
    ensures FromInput(s, Step(s, i, st).stack) && FromInput(s, Step(s, i, st).output)
  {
    var c := s[i];
    if IsDigit(c) {
      var number := s[i..RunEnd(s, i)];
      assert forall ch :: ch in number ==> ch in s;
    } else if c == '(' {
    } else if c == ')' {
      CloseFromInput(s, st);
    } else if IsOperator(c) {
      OperatorFromInput(s, i, st);
    }
  }

  lemma CloseFromInput(s: string, st: State)
    requires FromInput(s, st.stack) && FromInput(s, st.output)
    ensures var r := PopToParen(st);
      FromInput(s, r.stack) && FromInput(s, r.output) && (r.stack != [] ==> FromInput(s, Pop(r.stack)))
  {
    PopToParenOutput(st);
    var r := PopToParen(st);
    var seg := st.stack[|r.stack|..];
    assert forall ch :: ch in seg ==> ch in st.stack;
    assert forall ch :: ch in r.stack ==> ch in st.stack;
    assert forall ch :: ch in Reversed(seg) ==> ch in seg;
    if r.stack != [] {
      assert forall ch :: ch in Pop(r.stack) ==> ch in r.stack;
    }
  }

  lemma OperatorFromInput(s: string, i: nat, st: State)
    requires i < |s| && IsOperator(s[i]) && s[i] != '('
    requires AllOperators(st.stack) && FromInput(s, st.stack) && FromInput(s, st.output)
    ensures FromInput(s, Step(s, i, st).stack) && FromInput(s, Step(s, i, st).output)
  {
    var op := EffectiveOperator(s, i);
    var p := GetOperatorPriority(op);
    var r := PopWhileHigher(st, p);
    assert Step(s, i, st) == State(r.stack + [op], r.output);
    PopWhileHigherOutput(st, p);
    var seg := st.stack[|r.stack|..];
    assert forall ch :: ch in seg ==> ch in st.stack;
    assert forall ch :: ch in r.stack ==> ch in st.stack;
    assert forall ch :: ch in SpacedPops(seg) ==> ch == ' ' || ch in seg;
  }

  /** The unary-minus rule as the loop applies it: a `-` goes on the stack as
      `~` exactly when it is the first character, or when its index is above
      one and the character before it is in the priority table. */
  lemma UnaryMinusRule(s: string, i: nat, st: State)
    requires i < |s| && s[i] == '-' && AllOperators(st.stack)
    ensures Step(s, i, st).stack != []
    ensures Last(Step(s, i, st).stack) == '~' <==> (i == 0 || (i > 1 && IsOperator(s[i - 1])))
  {
    assert IsOperator('-');
  }

  /** Every other operator, the leading `+` included, goes on the stack as it is. */
  lemma OnlyMinusIsRemapped(s: string, i: nat, st: State)
    requires i < |s| && IsOperator(s[i]) && s[i] != '(' && s[i] != '-' && AllOperators(st.stack)
    ensures Step(s, i, st).stack != [] && Last(Step(s, i, st).stack) == s[i]
  {
  }

  /** Number of `(` on a stack. */
  function OpenCount(stack: seq<char>): nat
  {
    multiset(stack)['(']
  }

  /** Every entry other than `(` has strictly higher priority than the entry
      directly below it. */
  predicate StackOrdered(stack: seq<char>)
    requires AllOperators(stack)
  {
    forall k :: 0 < k < |stack| && stack[k] != '(' ==>
      GetOperatorPriority(stack[k - 1]) < GetOperatorPriority(stack[k])
  }

  /** The part of the input the loop has consumed before index `i`. */
  function Scanned(s: string, i: nat): string
  {
    if i <= |s| then s[..i] else s
  }

  /** What holds at the head of every iteration of the main loop: the stack
      holds ordered operators, one `(` per bracket still open in the consumed
      input, and no bracket has reached the output. */
  predicate Invariant(s: string, i: nat, st: State)
  {
    && AllOperators(st.stack)
    && StackOrdered(st.stack)
    && OpenCount(st.stack) == Balance(Scanned(s, i))
    && '(' !in st.output && ')' !in st.output
  }

  /** A run of number characters contains no bracket, so it leaves the count alone. */
  lemma {:induction false} RunKeepsBalance(s: string, i: nat, e: nat)
    requires i <= e <= |s|
    requires forall k :: i <= k < e ==> IsNumberChar(s[k])
    ensures Balance(s[..e]) == Balance(s[..i])
    decreases e - i
  {
    if i < e {
      RunKeepsBalance(s, i, e - 1);
      assert s[..e][..e - 1] == s[..e - 1];
    }
  }

  /** Each iteration keeps the invariant, and a closing bracket always finds
      a `(` on the stack, so the `Pop` after its popping loop never meets an
      empty stack. */
  lemma StepPreservesInvariant(s: string, i: nat, st: State)
    requires Balanced(s) && i < |s| && Invariant(s, i, st)
    ensures Invariant(s, NextIndex(s, i), Step(s, i, st))
    ensures s[i] == ')' ==> PopToParen(st).stack != [] && Last(PopToParen(st).stack) == '('
  {
    var c := s[i];
    assert s[..i + 1][..i] == s[..i];
    if IsDigit(c) {
      NumberStepPreservesInvariant(s, i, st);
    } else if c == '(' {
      var stack := st.stack + ['('];
      assert multiset(stack) == multiset(st.stack) + multiset{'('};
    } else if c == ')' {
      CloseStepPreservesInvariant(s, i, st);
    } else if IsOperator(c) {
      OperatorStepPreservesInvariant(s, i, st);
    }
  }

  lemma NumberStepPreservesInvariant(s: string, i: nat, st: State)
    requires i < |s| && IsDigit(s[i]) && Invariant(s, i, st)
    ensures Invariant(s, NextIndex(s, i), Step(s, i, st))
  {
    var e := RunEnd(s, i);
    RunKeepsBalance(s, i, e);
    assert Scanned(s, NextIndex(s, i)) == s[..e];
    var number := s[i..e];
    assert forall k :: 0 <= k < |number| ==> IsNumberChar(number[k]);
    assert '(' !in number && ')' !in number;
  }

  lemma CloseStepPreservesInvariant(s: string, i: nat, st: State)
    requires Balanced(s) && i < |s| && s[i] == ')' && Invariant(s, i, st)
    ensures PopToParen(st).stack != [] && Last(PopToParen(st).stack) == '('
    ensures Invariant(s, NextIndex(s, i), Step(s, i, st))
  {
    var r := PopToParen(st);
    assert Balance(s[..i + 1]) == Balance(s[..i]) - 1 by {
      assert s[..i + 1][..i] == s[..i];
    }
    assert Balance(s[..i + 1]) >= 0;
    CloseFindsOpen(st);
    assert Step(s, i, st) == State(Pop(r.stack), r.output);
    ClosePopsEmitNoBrackets(st);
  }

  /** When the stack holds a `(`, the popping loop of a closing bracket stops
      at one; removing it lowers the count by one and keeps the order. */
  lemma CloseFindsOpen(st: State)
    requires AllOperators(st.stack) && StackOrdered(st.stack) && OpenCount(st.stack) >= 1
    ensures var r := PopToParen(st);
      && r.stack != [] && Last(r.stack) == '('
      && OpenCount(Pop(r.stack)) == OpenCount(st.stack) - 1
      && AllOperators(Pop(r.stack)) && StackOrdered(Pop(r.stack))
  {
    var r := PopToParen(st);
    var n := |r.stack|;
    PopToParenStops(st);
    PoppedKeepsCount(st.stack, n);
    DropOpen(r.stack);
    PrefixOrdered(st.stack, n - 1);
    assert Pop(r.stack) == st.stack[..n - 1];
  }

  /** A stack that holds a `(` is not empty, and dropping a `(` from its top
      lowers the count by one. */
  lemma DropOpen(stack: seq<char>)
    requires OpenCount(stack) >= 1 && (stack == [] || Last(stack) == '(')
    ensures stack != [] && OpenCount(Pop(stack)) == OpenCount(stack) - 1
  {
    assert stack != [];
    assert stack == Pop(stack) + ['('];
    assert multiset(stack) == multiset(Pop(stack)) + multiset{'('};
  }

  /** The popping loop of a closing bracket adds only stack entries other than
      `(` to the output, so it adds no bracket. */
  lemma ClosePopsEmitNoBrackets(st: State)
    requires AllOperators(st.stack) && '(' !in st.output && ')' !in st.output
    ensures var r := PopToParen(st);
      '(' !in r.output && ')' !in r.output
  {
    var r := PopToParen(st);
    var n := |r.stack|;
    PopToParenStops(st);
    PopToParenOutput(st);
    OperatorSymbols(')');
    assert forall k :: n <= k < |st.stack| ==> st.stack[k] != ')';
    assert forall ch :: ch in Reversed(st.stack[n..]) ==> ch in st.stack[n..];
  }

  lemma OperatorStepPreservesInvariant(s: string, i: nat, st: State)
    requires i < |s| && IsOperator(s[i]) && s[i] != '(' && Invariant(s, i, st)
    ensures Invariant(s, NextIndex(s, i), Step(s, i, st))
  {
    var op := EffectiveOperator(s, i);
    var p := GetOperatorPriority(op);
    var r := PopWhileHigher(st, p);
    assert Step(s, i, st) == State(r.stack + [op], r.output);
    assert Balance(s[..i + 1]) == Balance(s[..i]) by {
      assert s[..i + 1][..i] == s[..i];
      OperatorSymbols(')');
    }
    OperatorPushKeepsCount(st, op);
    OperatorPushKeepsOrder(st, op);
    OperatorPopsEmitNoBrackets(st, p);
  }

  /** The popping loop of an operator never pops `(`, and pushing the operator
      (which is not `(`) leaves the number of `(` on the stack unchanged. */
  lemma OperatorPushKeepsCount(st: State, op: char)
    requires AllOperators(st.stack) && IsOperator(op) && op != '('
    ensures var r := PopWhileHigher(st, GetOperatorPriority(op));
      OpenCount(r.stack + [op]) == OpenCount(st.stack)
  {
    var p := GetOperatorPriority(op);
    var r := PopWhileHigher(st, p);
    var n := |r.stack|;
    PopWhileHigherPriorities(st, p);
    assert '(' !in st.stack[n..] by {
      forall k | n <= k < |st.stack| ensures st.stack[k] != '(' {
        assert GetOperatorPriority(st.stack[k]) >= p;
      }
    }
    PoppedKeepsCount(st.stack, n);
    assert multiset(r.stack + [op]) == multiset(r.stack) + multiset{op};
  }

  /** After the popping loop the operator goes on top of an entry of lower
      priority, so the stack stays ordered. */
  lemma OperatorPushKeepsOrder(st: State, op: char)
    requires AllOperators(st.stack) && StackOrdered(st.stack) && IsOperator(op)
    ensures var r := PopWhileHigher(st, GetOperatorPriority(op));
      AllOperators(r.stack + [op]) && StackOrdered(r.stack + [op])
  {
    var p := GetOperatorPriority(op);
    var r := PopWhileHigher(st, p);
    PopWhileHigherPriorities(st, p);
    PrefixOrdered(st.stack, |r.stack|);
    PushOrdered(r.stack, op, p);
  }

  /** The popping loop of an operator adds only stack entries and spaces to
      the output; with `p >= 1` it never pops `(`, so it adds no bracket. */
  lemma OperatorPopsEmitNoBrackets(st: State, p: int)
    requires AllOperators(st.stack) && '(' !in st.output && ')' !in st.output && p >= 1
    ensures var r := PopWhileHigher(st, p);
      '(' !in r.output && ')' !in r.output
  {
    var r := PopWhileHigher(st, p);
    var n := |r.stack|;
    PopWhileHigherOutput(st, p);
    PopWhileHigherPriorities(st, p);
    OperatorSymbols(')');
    assert forall k :: n <= k < |st.stack| ==> st.stack[k] != '(' && st.stack[k] != ')';
    assert forall ch :: ch in SpacedPops(st.stack[n..]) ==> ch == ' ' || ch in st.stack[n..];
  }

  /** A prefix of an ordered stack of operators is an ordered stack of operators. */
  lemma PrefixOrdered(stack: seq<char>, n: nat)
    requires AllOperators(stack) && StackOrdered(stack) && n <= |stack|
    ensures AllOperators(stack[..n]) && StackOrdered(stack[..n])
  {
  }

  /** Pushing an operator whose priority exceeds the top's keeps the order. */
  lemma PushOrdered(stack: seq<char>, op: char, p: int)
    requires AllOperators(stack) && StackOrdered(stack)
    requires IsOperator(op) && GetOperatorPriority(op) == p
    requires stack == [] || GetOperatorPriority(Last(stack)) < p
    ensures AllOperators(stack + [op]) && StackOrdered(stack + [op])
  {
    var t := stack + [op];
    forall k | 0 < k < |t| && t[k] != '('
      ensures GetOperatorPriority(t[k - 1]) < GetOperatorPriority(t[k])
    {
      if k < |stack| {
        assert t[k - 1] == stack[k - 1] && t[k] == stack[k];
      }
    }
  }

  /** Popping a segment without `(` leaves the count of `(` unchanged. */
  lemma PoppedKeepsCount(stack: seq<char>, n: nat)
    requires n <= |stack| && '(' !in stack[n..]
    ensures OpenCount(stack[..n]) == OpenCount(stack)
  {
    assert stack == stack[..n] + stack[n..];
    assert multiset(stack) == multiset(stack[..n]) + multiset(stack[n..]);
  }

  /** From any loop state satisfying the invariant, the rest of the conversion
      emits no bracket, and no `(` is left for the final drain. */
  lemma {:induction false} RunEmitsNoBrackets(s: string, i: nat, st: State)
    requires Balanced(s) && i <= |s| + 1 && Invariant(s, i, st)
    ensures '(' !in Run(s, i, st) && ')' !in Run(s, i, st)
    decreases |s| + 1 - i
  {
    if i >= |s| {
      assert Scanned(s, i) == s;
      assert '(' !in st.stack;
      OperatorSymbols(')');
      assert ')' !in st.stack;
    } else {
      StepPreservesInvariant(s, i, st);
      RunEmitsNoBrackets(s, NextIndex(s, i), Step(s, i, st));
    }
  }

  /** The postfix output of a balanced expression contains no bracket. */
  lemma ConvertEmitsNoBrackets(s: string)
    requires Balanced(s)
    ensures '(' !in Convert(s) && ')' !in Convert(s)
  {
    assert Scanned(s, 0) == [];
    RunEmitsNoBrackets(s, 0, State([], ""));
  }
}
