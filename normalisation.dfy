/** Normalisation of a validated expression: spaces removed and the decimal
    point `.` turned into the internal separator `,`. */
module Normalisation {
  import opened Validation

  /** Removing every space (the first replacement). */
  function RemoveSpaces(s: string): (r: string)
    ensures ' ' !in r
    ensures |r| <= |s|
    ensures forall c :: c != ' ' ==> multiset(r)[c] == multiset(s)[c]
    ensures ' ' !in s ==> r == s
  {
    if s == [] then []
    else
      assert s == [s[0]] + s[1..];
      (if s[0] == ' ' then [] else [s[0]]) + RemoveSpaces(s[1..])
  }

  /** Turning every `.` into `,` (the second replacement). */
  function ReplaceDots(s: string): (r: string)
    ensures |r| == |s|
    ensures forall i :: 0 <= i < |r| ==> r[i] == (if s[i] == '.' then ',' else s[i])
  {
    if s == [] then [] else [if s[0] == '.' then ',' else s[0]] + ReplaceDots(s[1..])
  }

  /** The normalised form: no space and no `.` is left, and on input without
      spaces (the only input validation lets through) every character stays in
      place, a `.` becoming `,`. */
  function GetInfixExpression(expression: string): (r: string)
    ensures ' ' !in r && '.' !in r
    ensures |r| <= |expression|
    ensures ' ' !in expression ==>
              |r| == |expression| &&
              forall i :: 0 <= i < |r| ==> r[i] == (if expression[i] == '.' then ',' else expression[i])
  {
    var t := RemoveSpaces(expression);
    var r := ReplaceDots(t);
    assert forall i :: 0 <= i < |r| ==> r[i] != ' ' && r[i] != '.' by {
      forall i | 0 <= i < |r| ensures r[i] != ' ' && r[i] != '.' {
        assert t[i] in t;
      }
    }
    r
  }

  /** Space removal works piece by piece, so it keeps the order of the kept
      characters. */
  lemma {:induction false} RemoveSpacesAppend(a: string, b: string)
    ensures RemoveSpaces(a + b) == RemoveSpaces(a) + RemoveSpaces(b)
    decreases |a|
  {
    if a == [] {
      assert a + b == b;
    } else {
      assert (a + b)[1..] == a[1..] + b;
      RemoveSpacesAppend(a[1..], b);
    }
  }

  /** The normal form of a concatenation is the concatenation of the normal
      forms. */
  lemma NormalisationAppend(a: string, b: string)
    ensures GetInfixExpression(a + b) == GetInfixExpression(a) + GetInfixExpression(b)
  {
    RemoveSpacesAppend(a, b);
    ReplaceDotsAppend(RemoveSpaces(a), RemoveSpaces(b));
  }

  /** Dot replacement works piece by piece as well. */
  lemma ReplaceDotsAppend(t: string, u: string)
    ensures ReplaceDots(t + u) == ReplaceDots(t) + ReplaceDots(u)
  {
    var l, r := ReplaceDots(t + u), ReplaceDots(t) + ReplaceDots(u);
    forall i | 0 <= i < |l| ensures l[i] == r[i] {
      if i < |t| {
        assert (t + u)[i] == t[i];
      } else {
        assert (t + u)[i] == u[i - |t|];
      }
    }
  }

  /** One character: a space is dropped, a `.` becomes `,`, anything else is
      kept. With `NormalisationAppend` this fixes the normal form of every
      string, character by character and in order. */
  lemma NormalisationOfChar(c: char)
    ensures GetInfixExpression([c]) == if c == ' ' then [] else [if c == '.' then ',' else c]
  {
    assert [c][1..] == [];
  }

  /** An expression with no space and no `.` is already normalised. */
  lemma NormalisationKeepsPlain(expression: string)
    requires ' ' !in expression && '.' !in expression
    ensures GetInfixExpression(expression) == expression
  {
    var r := GetInfixExpression(expression);
    forall i | 0 <= i < |r| ensures r[i] == expression[i] {
      assert expression[i] in expression;
    }
  }

  /** Normalising twice is the same as normalising once. */
  lemma NormalisationIdempotent(expression: string)
    ensures GetInfixExpression(GetInfixExpression(expression)) == GetInfixExpression(expression)
  {
    var r := GetInfixExpression(expression);
    var rr := GetInfixExpression(r);
    assert |rr| == |r|;
    forall i | 0 <= i < |r| ensures rr[i] == r[i] {
      assert r[i] in r;
    }
  }

  /** A valid expression stays valid and keeps its bracket structure. */
  lemma NormalisationPreservesValidity(expression: string)
    requires AllAllowed(expression) && Balanced(expression)
    ensures AllAllowed(GetInfixExpression(expression))
    ensures Balanced(GetInfixExpression(expression))
    ensures |GetInfixExpression(expression)| == |expression|
  {
    var r := GetInfixExpression(expression);
    assert ' ' !in expression by {
      if ' ' in expression {
        var k :| 0 <= k < |expression| && expression[k] == ' ';
        SpaceIsRejected(expression, k);
      }
    }
    forall k | 0 <= k <= |r| ensures Balance(r[..k]) == Balance(expression[..k]) {
      SameBracketsSameBalance(r[..k], expression[..k]);
    }
    assert r[..|r|] == r && expression[..|expression|] == expression;
  }

  /** Strings that agree on where their brackets are have the same count. */
  lemma {:induction false} SameBracketsSameBalance(s: string, t: string)
    requires |s| == |t|
    requires forall i :: 0 <= i < |s| ==> Delta(s[i]) == Delta(t[i])
    ensures Balance(s) == Balance(t)
    decreases |s|
  {
    if s != [] {
      SameBracketsSameBalance(s[..|s| - 1], t[..|t| - 1]);
    }
  }
}
