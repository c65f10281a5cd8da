/**
 * Project Euler problem 1 ("Multiples of 3 or 5"): the sum of all natural
 * numbers below 1000 that are multiples of 3 or of 5.  The solution adds
 * the qualifying numbers one by one; `Apint` is an unbounded integer.
 */
module MultiplesOfThreeOrFive {
  import opened JavaText

  /** The loop runs over [1, LIMIT). */
  const LIMIT: nat := 1000

  /** The numbers the loop adds: multiples of 3 or of 5. */
  predicate Counted(i: int)
  {
    i % 3 == 0 || i % 5 == 0
  }

  /** The sum of the counted numbers in [1, n). */
  function SumCounted(n: nat): nat
  {
    if n <= 1 then 0 else SumCounted(n - 1) + (if Counted(n - 1) then n - 1 else 0)
  }

  /** The sum of the multiples of `k` in [1, n). */
  function MultiplesBelow(k: nat, n: nat): nat
    requires k > 0
  {
    if n <= 1 then 0 else MultiplesBelow(k, n - 1) + (if (n - 1) % k == 0 then n - 1 else 0)
  }

  /** The sum never decreases as the range grows. */
  lemma {:induction false} SumCountedMonotone(n: nat, m: nat)
    requires n <= m
    ensures SumCounted(n) <= SumCounted(m)
    decreases m
  {
    if n < m {
      SumCountedMonotone(n, m - 1);
    }
  }

  /** A number is a multiple of 15 exactly when it is a multiple of both 3 and 5. */
  lemma MultipleOfFifteen(i: int)
    ensures i % 15 == 0 <==> i % 3 == 0 && i % 5 == 0
  {
    var q, r := i / 15, i % 15;
    assert i == 15 * q + r && 0 <= r < 15;
    DivisionUnique(3, 5 * q + r / 3, r % 3);
    DivisionUnique(5, 3 * q + r / 5, r % 5);
  }

  /**
   * Inclusion-exclusion: the multiples of 15 are multiples of both 3 and 5,
   * and each of them is added once.
   */
  lemma {:induction false} InclusionExclusion(n: nat)
    ensures SumCounted(n) + MultiplesBelow(15, n) == MultiplesBelow(3, n) + MultiplesBelow(5, n)
  {
    if n > 1 {
      InclusionExclusion(n - 1);
      MultipleOfFifteen(n - 1);
    }
  }

  /** No multiple of `k` lies strictly between `k * t` and `k * (t + 1)`. */
  lemma {:induction false} MultiplesGap(k: nat, t: nat, j: nat)
    requires k > 0 && j < k
    ensures MultiplesBelow(k, k * t + 1 + j) == MultiplesBelow(k, k * t + 1)
  {
    if j > 0 {
      MultiplesGap(k, t, j - 1);
      DivisionUnique(k, t, j);
    }
  }

  lemma TriangleStep(k: int, t: int, m: int)
    requires 2 * m == k * (t - 1) * t
    ensures 2 * (m + k * t) == k * t * (t + 1)
  {
    assert k * (t - 1) * t == k * t * t - k * t;
    assert k * t * (t + 1) == k * t * t + k * t;
  }

  /** The multiples of `k` up to `k * t` add up to `k * t * (t + 1) / 2`. */
  lemma {:induction false} MultiplesClosedForm(k: nat, t: nat)
    requires k > 0
    ensures 2 * MultiplesBelow(k, k * t + 1) == k * t * (t + 1)
  {
    if t > 0 {
      var n := k * t;
      MultiplesClosedForm(k, t - 1);
      MultiplesGap(k, t - 1, k - 1);
      assert k * (t - 1) + 1 + (k - 1) == n;
      DivisionUnique(k, t, 0);
      assert MultiplesBelow(k, n + 1) == MultiplesBelow(k, n) + n;
      TriangleStep(k, t, MultiplesBelow(k, n));
    }
  }

  /** The multiples of `k` below `n` add up to `k * q * (q + 1) / 2` with `q = (n - 1) / k`. */
  lemma MultiplesBelowClosedForm(k: nat, n: nat)
    requires k > 0 && n >= 1
    ensures var q := (n - 1) / k; 2 * MultiplesBelow(k, n) == k * q * (q + 1)
  {
    var q, r := (n - 1) / k, (n - 1) % k;
    assert n == k * q + 1 + r;
    MultiplesClosedForm(k, q);
    MultiplesGap(k, q, r);
  }

  /**
   * Inclusion-exclusion with the closed forms: twice the answer below `n` is
   * 3a(a+1) + 5b(b+1) - 15c(c+1), where a, b and c count the multiples of
   * 3, 5 and 15 below `n`.
   */
  lemma SumCountedClosedForm(n: nat)
    requires n >= 1
    ensures var a, b, c := (n - 1) / 3, (n - 1) / 5, (n - 1) / 15;
      2 * SumCounted(n) == 3 * a * (a + 1) + 5 * b * (b + 1) - 15 * c * (c + 1)
  {
    InclusionExclusion(n);
    MultiplesBelowClosedForm(3, n);
    MultiplesBelowClosedForm(5, n);
    MultiplesBelowClosedForm(15, n);
  }

  /** The answer below 1000. */
  lemma AnswerBelowLimit()
    ensures SumCounted(LIMIT) == 233168
  {
    SumCountedClosedForm(LIMIT);
    assert (LIMIT - 1) / 3 == 333 && (LIMIT - 1) / 5 == 199 && (LIMIT - 1) / 15 == 66;
    assert 2 * SumCounted(LIMIT) == 3 * 333 * 334 + 5 * 199 * 200 - 15 * 66 * 67;
  }

  /** p1.main: add every i in [1, 1000) that is a multiple of 3 or 5. */
  method SumMultiples() returns (sum: int)
    ensures sum == SumCounted(LIMIT)
    ensures sum == 233168
  {
    sum := 0;
    for i := 1 to LIMIT
      invariant sum == SumCounted(i)
    {
      if i % 3 == 0 || i % 5 == 0 {
        sum := sum + i;
      }
    }
    AnswerBelowLimit();
  }
}
