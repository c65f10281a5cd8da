/**
 * Project Euler problem 2 ("Even Fibonacci Numbers"): the sum of the even
 * terms of the sequence 1, 2, 3, 5, 8, ... that do not exceed four million.
 * The solution keeps the last two terms in a two-element array, starts the
 * sum at 2 (the second term) and adds every even term it computes until a
 * term reaches four million.
 */
module EvenFibonacci {

  /** The loop runs while the last computed term is below this bound. */
  const LIMIT: nat := 4000000

  /** Two consecutive terms, (Term(k), Term(k + 1)): the rolling window after k steps. */
  function Window(k: nat): (w: (nat, nat))
    ensures 1 <= w.0 < w.1
  {
    if k == 0 then (1, 2) else var w := Window(k - 1); (w.1, w.0 + w.1)
  }

  /** The terms as the problem numbers them from 0: 1, 2, 3, 5, 8, 13, ... */
  function Term(k: nat): nat
  {
    Window(k).0
  }

  /** The Fibonacci rule: each term is the sum of the two before it. */
  lemma TermRecurrence(k: nat)
    ensures Term(0) == 1 && Term(1) == 2
    ensures Term(k + 2) == Term(k) + Term(k + 1)
  {
  }

  /** The terms grow strictly. */
  lemma {:induction false} TermIncreasing(i: nat, j: nat)
    requires i < j
    ensures Term(i) < Term(j)
    decreases j
  {
    if i < j - 1 {
      TermIncreasing(i, j - 1);
    }
  }

  /** The parities in the window repeat with period 3: odd-even, even-odd, odd-odd. */
  lemma {:induction false} WindowParity(k: nat)
    ensures var w := Window(k);
      && (w.0 % 2 == 0 <==> k % 3 == 1)
      && (w.1 % 2 == 0 <==> k % 3 == 0)
  {
    if k > 0 {
      WindowParity(k - 1);
      var w := Window(k - 1);
      assert Window(k) == (w.1, w.0 + w.1);
      SumParity(w.0, w.1);
      ResidueStep(k);
    }
  }

  /** A sum is even exactly when both terms have the same parity. */
  lemma SumParity(a: nat, b: nat)
    ensures (a + b) % 2 == 0 <==> (a % 2 == 0 <==> b % 2 == 0)
  {
    assert a == 2 * (a / 2) + a % 2 && b == 2 * (b / 2) + b % 2;
    assert a + b == 2 * (a / 2 + b / 2) + (a % 2 + b % 2);
  }

  /** Stepping from k - 1 to k advances the residue modulo 3 by one. */
  lemma ResidueStep(k: nat)
    requires k > 0
    ensures (k % 3 == 0 <==> (k - 1) % 3 == 2) && (k % 3 == 1 <==> (k - 1) % 3 == 0)
  {
  }

  /** Every third term, starting with the second, is even, and no other is. */
  lemma TermParity(k: nat)
    ensures Term(k) % 2 == 0 <==> k % 3 == 1
  {
    WindowParity(k);
  }

  /** The sum of the even terms among Term(0) .. Term(k). */
  function EvenSum(k: nat): nat
  {
    (if k == 0 then 0 else EvenSum(k - 1)) + (if Term(k) % 2 == 0 then Term(k) else 0)
  }

  /** The sum of every third term, Term(1) + Term(4) + Term(7) + ..., up to Term(k). */
  function EveryThirdSum(k: nat): nat
  {
    (if k == 0 then 0 else EveryThirdSum(k - 1)) + (if k % 3 == 1 then Term(k) else 0)
  }

  /** Summing the even terms is summing every third term. */
  lemma {:induction false} EvenSumIsEveryThird(k: nat)
    ensures EvenSum(k) == EveryThirdSum(k)
  {
    TermParity(k);
    if k > 0 {
      EvenSumIsEveryThird(k - 1);
    }
  }

  /** The terms around the bound and the sum of every third term up to Term(32). */
  lemma ValuesAtBound()
    ensures Term(31) == 3524578 && Term(32) == 5702887
    ensures EveryThirdSum(32) == 4613732
  {
    assert Window(1) == (2, 3);
    assert Window(2) == (3, 5);
    assert Window(3) == (5, 8);
    assert Window(4) == (8, 13);
    assert Window(5) == (13, 21);
    assert Window(6) == (21, 34);
    assert Window(7) == (34, 55);
    assert Window(8) == (55, 89);
    assert Window(9) == (89, 144);
    assert Window(10) == (144, 233);
    assert Window(11) == (233, 377);
    assert Window(12) == (377, 610);
    assert Window(13) == (610, 987);
    assert Window(14) == (987, 1597);
    assert Window(15) == (1597, 2584);
    assert Window(16) == (2584, 4181);
    assert Window(17) == (4181, 6765);
    assert Window(18) == (6765, 10946);
    assert Window(19) == (10946, 17711);
    assert Window(20) == (17711, 28657);
    assert Window(21) == (28657, 46368);
    assert Window(22) == (46368, 75025);
    assert Window(23) == (75025, 121393);
    assert Window(24) == (121393, 196418);
    assert Window(25) == (196418, 317811);
    assert Window(26) == (317811, 514229);
    assert Window(27) == (514229, 832040);
    assert Window(28) == (832040, 1346269);
    assert Window(29) == (1346269, 2178309);
    assert Window(30) == (2178309, 3524578);
    assert Window(31) == (3524578, 5702887);
    assert Window(32) == (5702887, 9227465);
    assert EveryThirdSum(1) == 2;
    assert EveryThirdSum(4) == 10;
    assert EveryThirdSum(7) == 44;
    assert EveryThirdSum(10) == 188;
    assert EveryThirdSum(13) == 798;
    assert EveryThirdSum(16) == 3382;
    assert EveryThirdSum(19) == 14328;
    assert EveryThirdSum(22) == 60696;
    assert EveryThirdSum(25) == 257114;
    assert EveryThirdSum(28) == 1089154;
    assert EveryThirdSum(31) == 4613732;
    assert EveryThirdSum(32) == 4613732;
  }

  /** Term(32) is the first term that is not below the bound. */
  lemma FirstTermAtBound(k: nat)
    requires 1 <= k && Term(k - 1) < LIMIT <= Term(k)
    ensures k == 32
  {
    ValuesAtBound();
    if k < 32 {
      if k < 31 {
        TermIncreasing(k, 31);
      }
    } else if k > 32 {
      TermIncreasing(32, k - 1);
    }
  }

  /** The answer: the even terms below four million add up to 4613732. */
  lemma EvenSumAtBound()
    ensures EvenSum(32) == 4613732
  {
    ValuesAtBound();
    EvenSumIsEveryThird(32);
  }

  /**
   * p2.main: the window holds two consecutive terms, `current` the last
   * computed one; each even term computed is added once, and the loop stops
   * at the first term that reaches the bound.  That term, Term(32), is odd,
   * so the sum is that of the even terms up to Term(31).
   */
  method EvenFibonacciSum() returns (sum: int)
    ensures sum == EvenSum(32)
    ensures sum == 4613732
  {
    var rollingElementWindow := new int[] [1, 2];
    var current := 0;
    sum := 2;
    ghost var k: nat := 1;
    while current < LIMIT
      invariant k >= 1
      invariant rollingElementWindow.Length == 2
      invariant rollingElementWindow[0] == Term(k - 1) && rollingElementWindow[1] == Term(k)
      invariant current == if k == 1 then 0 else Term(k)
      invariant k >= 2 ==> Term(k - 1) < LIMIT
      invariant sum == EvenSum(k)
      decreases LIMIT - current
    {
      current := rollingElementWindow[0] + rollingElementWindow[1];
      rollingElementWindow[0] := rollingElementWindow[1];
      rollingElementWindow[1] := current;
      k := k + 1;
      if current % 2 == 0 {
        sum := sum + current;
      }
    }
    FirstTermAtBound(k);
    EvenSumAtBound();
  }
}
