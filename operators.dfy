/** The fixed, read-only operator priority table of the parser and the
    character classes the scan relies on. */
module Operators {

  /** Operator symbol to priority. `(` has the lowest priority so that no
      operator ever pops it; `~` is the synthetic unary minus, which never
      occurs in input and is introduced by the conversion. */
  const OperationPriority: map<char, int> :=
    map['(' := 0, '+' := 1, '-' := 1, '*' := 2, '/' := 2, '^' := 3, '~' := 4]

  /** A character is an operator exactly when it is a key of the table; no
      character of a number and no `)` is one. */
  predicate IsOperator(c: char)
    ensures IsOperator(c) ==> c != ')' && c != ',' && c != '.' && !IsDigit(c)
  {
    c in OperationPriority
  }

  /** The keys of the table are the six operator symbols of the input and `~`;
      in particular `)` is not one of them. */
  lemma OperatorSymbols(c: char)
    ensures IsOperator(c) <==> c in "(+-*/^~"
    ensures !IsOperator(')')
  {
  }

  /** Priority lookup; only ever asked about keys of the table. */
  function GetOperatorPriority(c: char): (p: int)
    requires IsOperator(c)
    ensures 0 <= p <= 4
    ensures p == 0 <==> c == '('
    ensures p == 4 <==> c == '~'
  {
    OperationPriority[c]
  }

  /** Precedence order of the table: additive below multiplicative below
      power below unary minus, with `(` below everything. */
  lemma PriorityOrder()
    ensures GetOperatorPriority('(') < GetOperatorPriority('+') == GetOperatorPriority('-')
    ensures GetOperatorPriority('-') < GetOperatorPriority('*') == GetOperatorPriority('/')
    ensures GetOperatorPriority('/') < GetOperatorPriority('^') < GetOperatorPriority('~')
  {
  }

  /** Decimal digits; non-ASCII digits never pass validation. */
  predicate IsDigit(c: char)
  {
    '0' <= c <= '9'
  }
}
