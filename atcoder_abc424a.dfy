/**
 * AtCoder ABC424 A ("Isosceles"): three side lengths are read from the
 * first input line; the answer is "Yes" when at least two of them are
 * equal and "No" otherwise.
 *
 * Standard input is the sequence of its lines.  A missing line, fewer than
 * three tokens or a token that is not an `int` make Java throw: `None`.
 */
module Isosceles {
  import opened Wrappers
  import opened JavaText

  /** At least two of the three sides are equal. */
  predicate IsIsosceles(a: int, b: int, c: int)
  {
    a == b || a == c || b == c
  }

  /** An independent reading: the three sides take fewer than three distinct values. */
  lemma IsoscelesDistinct(a: int, b: int, c: int)
    ensures IsIsosceles(a, b, c) <==> |{a, b, c}| < 3
  {
    if a == b {
      assert {a, b, c} == {a, c};
    } else if a == c {
      assert {a, b, c} == {a, b};
    } else if b == c {
      assert {a, b, c} == {a, b};
    } else {
      assert |{a, b, c}| == |{a, b} + {c}| == 3;
    }
  }

  /** The verdict does not depend on the order in which the sides are given. */
  lemma {:induction false} IsoscelesSymmetric(a: int, b: int, c: int)
    ensures IsIsosceles(a, b, c) == IsIsosceles(b, a, c)
    ensures IsIsosceles(a, b, c) == IsIsosceles(a, c, b)
    ensures IsIsosceles(a, b, c) == IsIsosceles(c, b, a)
  {
    IsoscelesDistinct(a, b, c);
    IsoscelesDistinct(b, a, c);
    IsoscelesDistinct(a, c, b);
    IsoscelesDistinct(c, b, a);
    assert {a, b, c} == {b, a, c} == {a, c, b} == {c, b, a};
  }

  /** The printed line for a token stream: only the first three tokens are read. */
  function Decide(ts: seq<string>): Option<string>
  {
    if |ts| < 3 then None
    else
      var a, b, c := ParseInt(ts[0]), ParseInt(ts[1]), ParseInt(ts[2]);
      if a.None? || b.None? || c.None? then None
      else if IsIsosceles(a.value, b.value, c.value) then Some("Yes") else Some("No")
  }

  /** ABC424A.main: tokenize the first line and decide; exactly one of "Yes" and "No" is printed. */
  function Answer(input: seq<string>): (r: Option<string>)
    ensures r.Some? ==> r.value == "Yes" || r.value == "No"
    ensures r.Some? ==> input != [] && |Tokens(input[0])| >= 3
  {
    if input == [] then None else Decide(Tokens(input[0]))
  }

  /** Tokens after the third and lines after the first are never looked at. */
  lemma OnlyFirstThreeTokens(input: seq<string>, more: seq<string>)
    requires input != [] && |Tokens(input[0])| >= 3
    ensures Answer(input + more) == Decide(Tokens(input[0])[..3])
  {
    assert (input + more)[0] == input[0];
  }

  /** Three side lengths written in decimal get the verdict for those sides. */
  lemma DecideOfSides(a: nat, b: nat, c: nat)
    requires a <= INT_MAX && b <= INT_MAX && c <= INT_MAX
    ensures Decide([Decimal(a), Decimal(b), Decimal(c)]) == Some(if IsIsosceles(a, b, c) then "Yes" else "No")
  {
    ParseDecimal(a, INT_MIN, INT_MAX);
    ParseDecimal(b, INT_MIN, INT_MAX);
    ParseDecimal(c, INT_MIN, INT_MAX);
  }

  lemma DigitsAreTokens(s: string)
    requires AllDigits(s)
    ensures NoDelimiter(s)
  {
  }

  lemma TokensOfThree(x: string, y: string, z: string)
    requires x != [] && y != [] && z != []
    requires NoDelimiter(x) && NoDelimiter(y) && NoDelimiter(z)
    ensures Tokens(JoinSpaced([x, y, z])) == [x, y, z]
  {
    var ts := [x, y, z];
    assert forall k :: 0 <= k < |ts| ==> ts[k] != [] && NoDelimiter(ts[k]);
    TokensOfJoin(ts);
  }

  /** A first line holding three side lengths separated by blanks gets the verdict for those sides. */
  lemma AnswerOfSides(a: nat, b: nat, c: nat, rest: seq<string>)
    requires a <= INT_MAX && b <= INT_MAX && c <= INT_MAX
    ensures Answer([JoinSpaced([Decimal(a), Decimal(b), Decimal(c)])] + rest)
      == Some(if a == b || a == c || b == c then "Yes" else "No")
  {
    var ts := [Decimal(a), Decimal(b), Decimal(c)];
    var line := JoinSpaced(ts);
    DigitsAreTokens(ts[0]);
    DigitsAreTokens(ts[1]);
    DigitsAreTokens(ts[2]);
    TokensOfThree(ts[0], ts[1], ts[2]);
    DecideOfSides(a, b, c);
    assert ([line] + rest)[0] == line;
  }
}
