/**
 * The statistics engine (`Statistics.java`): from an array of nanosecond samples it takes a
 * sorted copy and computes min, max, the exact total, the truncated mean, three quartiles,
 * the population standard deviation and an hours/minutes/seconds/milliseconds breakdown of
 * the total.
 *
 * Samples are unbounded integers (the Java `long` samples and `Apint` accumulators never
 * overflow here); Java's truncating `/` is `TruncDiv`. The quartile positions are computed in
 * exact rationals: the Java doubles hold them exactly, since they are multiples of 1/4.
 */
module Stats {
  import opened Wrappers
  import opened JavaText

  // ---------------------------------------------------------------------------
  // The sorted copy (`Arrays.stream(data).sorted().toArray()`)

  predicate Sorted(s: seq<int>) { forall i, j :: 0 <= i < j < |s| ==> s[i] <= s[j] }

  /** Inserts `x` into an ascending sequence. */
  function Insert(x: int, s: seq<int>): (r: seq<int>)
    requires Sorted(s)
    ensures |r| == |s| + 1
    ensures r[0] == x || (s != [] && r[0] == s[0])
    ensures Sorted(r)
  {
    if s == [] then [x]
    else if x <= s[0] then ConsSorted(x, s); [x] + s
    else
      var t := Insert(x, s[1..]);
      assert s == [s[0]] + s[1..];
      ConsSorted(s[0], t);
      [s[0]] + t
  }

  /** Inserting adds exactly one occurrence of `x` and keeps every other element. */
  lemma {:induction false} InsertMultiset(x: int, s: seq<int>)
    requires Sorted(s)
    ensures multiset(Insert(x, s)) == multiset(s) + multiset{x}
  {
    if s != [] && x > s[0] {
      InsertMultiset(x, s[1..]);
      assert s == [s[0]] + s[1..];
    }
  }

  /** An element no larger than the head of an ascending sequence can be put in front of it. */
  lemma ConsSorted(a: int, t: seq<int>)
    requires Sorted(t) && (t == [] || a <= t[0])
    ensures Sorted([a] + t)
  {
    assert forall i :: 0 <= i < |t| ==> a <= t[i];
  }

  /** Every element of an ascending sequence lies between its first and last elements. */
  lemma MemberOfSorted(s: seq<int>, y: int)
    requires Sorted(s) && y in s
    ensures s[0] <= y <= s[|s| - 1]
  {
    var j :| 0 <= j < |s| && s[j] == y;
  }

  /** The ascending copy of the samples that the constructor works on. */
  function SortedCopy(data: seq<int>): (r: seq<int>)
    ensures |r| == |data|
    ensures multiset(r) == multiset(data)
    ensures Sorted(r)
  {
    if data == [] then []
    else
      assert data == [data[0]] + data[1..];
      InsertMultiset(data[0], SortedCopy(data[1..]));
      Insert(data[0], SortedCopy(data[1..]))
  }

  /** Sorting is idempotent: the sorted copy of an ascending sequence is the sequence itself. */
  lemma {:induction false} SortedCopyOfSorted(s: seq<int>)
    requires Sorted(s)
    ensures SortedCopy(s) == s
  {
    if s != [] {
      SortedCopyOfSorted(s[1..]);
      assert s == [s[0]] + s[1..];
    }
  }

  /** The first and last elements of a sorted permutation are the smallest and largest elements. */
  lemma SortedPermutationBounds(s: seq<int>, data: seq<int>)
    requires Sorted(s) && multiset(s) == multiset(data) && |data| >= 1
    ensures s[0] in data && s[|s| - 1] in data
    ensures forall i :: 0 <= i < |data| ==> s[0] <= data[i] <= s[|s| - 1]
  {
    assert |s| == |multiset(s)| == |data|;
    assert s[0] in multiset(data) && s[|s| - 1] in multiset(data);
    forall i | 0 <= i < |data| ensures s[0] <= data[i] <= s[|s| - 1] {
      assert data[i] in multiset(s);
      MemberOfSorted(s, data[i]);
    }
  }

  // ---------------------------------------------------------------------------
  // Sums

  /** Σ f(x) over `s`, accumulated from the left as the constructor's loops do. */
  function SumOf(s: seq<int>, f: int -> int): int
  {
    if s == [] then 0 else SumOf(s[..|s| - 1], f) + f(s[|s| - 1])
  }

  lemma {:induction false} SumOfAppend(a: seq<int>, b: seq<int>, f: int -> int)
    ensures SumOf(a + b, f) == SumOf(a, f) + SumOf(b, f)
    decreases |b|
  {
    if b == [] {
      assert a + b == a;
    } else {
      assert (a + b)[..|a + b| - 1] == a + b[..|b| - 1];
      SumOfAppend(a, b[..|b| - 1], f);
    }
  }

  /** Removing one element takes exactly its term off the total. */
  lemma SumOfRemove(b: seq<int>, k: int, f: int -> int)
    requires 0 <= k < |b|
    ensures SumOf(b, f) == SumOf(b[..k] + b[k + 1..], f) + f(b[k])
  {
    var x, left, right := b[k], b[..k], b[k + 1..];
    assert b == left + ([x] + right);
    assert SumOf([x] + right, f) == f(x) + SumOf(right, f) by {
      SumOfAppend([x], right, f);
      assert [x][..0] == [];
    }
    SumOfAppend(left, [x] + right, f);
    SumOfAppend(left, right, f);
  }

  /** Taking out the element at `k` takes one occurrence of it out of the multiset. */
  lemma RemoveAt(b: seq<int>, k: int)
    requires 0 <= k < |b|
    ensures multiset(b[..k] + b[k + 1..]) == multiset(b) - multiset{b[k]}
  {
    assert b == b[..k] + [b[k]] + b[k + 1..];
    assert multiset(b) == multiset(b[..k]) + multiset{b[k]} + multiset(b[k + 1..]);
  }

  /** The total does not depend on the order of the samples: summing the sorted copy sums the samples. */
  lemma {:induction false} SumOfPermutation(a: seq<int>, b: seq<int>, f: int -> int)
    requires multiset(a) == multiset(b)
    ensures SumOf(a, f) == SumOf(b, f)
    decreases |a|
  {
    if a == [] {
      assert |b| == |multiset(b)| == 0;
    } else {
      var x := a[|a| - 1];
      assert a == a[..|a| - 1] + [x];
      assert multiset(a[..|a| - 1]) == multiset(a) - multiset{x};
      assert x in multiset(b);
      var k :| 0 <= k < |b| && b[k] == x;
      RemoveAt(b, k);
      SumOfPermutation(a[..|a| - 1], b[..k] + b[k + 1..], f);
      SumOfRemove(b, k, f);
    }
  }

  lemma {:induction false} SumOfNonNegative(s: seq<int>, f: int -> int)
    requires forall x :: f(x) >= 0
    ensures SumOf(s, f) >= 0
  {
    if s != [] {
      SumOfNonNegative(s[..|s| - 1], f);
    }
  }

  function Identity(x: int): int { x }

  /** The exact total of the samples. */
  function Sum(s: seq<int>): int
  {
    SumOf(s, Identity)
  }

  /** The squared deviation of a sample from `mean`. */
  function DeviationFrom(mean: int): int -> int
  {
    x => (x - mean) * (x - mean)
  }

  /** Σ (x − mean)² over `s`. */
  function SquaredDeviations(s: seq<int>, mean: int): (u: int)
    ensures u >= 0
  {
    assert forall x :: DeviationFrom(mean)(x) >= 0;
    SumOfNonNegative(s, DeviationFrom(mean));
    SumOf(s, DeviationFrom(mean))
  }

  /** `timeSum`: the loop at lines 39-42, accumulating the exact sum of the sorted copy. */
  method TotalTime(sorted: seq<int>) returns (timeSum: int)
    ensures timeSum == Sum(sorted)
  {
    timeSum := 0;
    var i := 0;
    while i < |sorted|
      invariant 0 <= i <= |sorted|
      invariant timeSum == Sum(sorted[..i])
    {
      assert sorted[..i + 1][..i] == sorted[..i];
      timeSum := timeSum + sorted[i];
      i := i + 1;
    }
    assert sorted[..i] == sorted;
  }

  /** `unnormalizedVariance`: the loop at lines 70-74. */
  method UnnormalizedVariance(sorted: seq<int>, mean: int) returns (u: int)
    ensures u == SquaredDeviations(sorted, mean)
  {
    u := 0;
    var i := 0;
    while i < |sorted|
      invariant 0 <= i <= |sorted|
      invariant u == SquaredDeviations(sorted[..i], mean)
    {
      assert sorted[..i + 1][..i] == sorted[..i];
      u := u + (sorted[i] - mean) * (sorted[i] - mean);
      i := i + 1;
    }
    assert sorted[..i] == sorted;
  }

  // ---------------------------------------------------------------------------
  // Integer square root (`ApintMath.sqrt(v)[0]`)

  /** The integer square root: the largest `r` with `r * r <= n`. */
  function ISqrt(n: nat): (r: nat)
    ensures r * r <= n < (r + 1) * (r + 1)
  {
    if n < 4 then (if n == 0 then 0 else 1)
    else
      var h := ISqrt(n / 4);
      SqrtStep(n, h);
      if (2 * h + 1) * (2 * h + 1) <= n then 2 * h + 1 else 2 * h
  }

  lemma SqrtStep(n: nat, h: nat)
    requires h * h <= n / 4 < (h + 1) * (h + 1)
    ensures (2 * h) * (2 * h) <= n < (2 * h + 2) * (2 * h + 2)
  {
    var q := n / 4;
    assert n == 4 * q + n % 4;
    assert (2 * h) * (2 * h) == 4 * (h * h);
    assert (2 * h + 2) * (2 * h + 2) == 4 * ((h + 1) * (h + 1));
    assert q + 1 <= (h + 1) * (h + 1);
  }

  lemma SquareMonotone(a: nat, b: nat)
    requires a <= b
    ensures a * a <= b * b
  {
    assert a * a <= a * b <= b * b;
  }

  /** The bracket determines the integer square root. */
  lemma ISqrtUnique(n: nat, r: nat)
    requires r * r <= n < (r + 1) * (r + 1)
    ensures ISqrt(n) == r
  {
    var t := ISqrt(n);
    if t < r {
      SquareMonotone(t + 1, r);
    } else if t > r {
      SquareMonotone(r + 1, t);
    }
  }

  // ---------------------------------------------------------------------------
  // Quartiles (lines 45-67)

  datatype Quart = Q1 | Median | Q3

  /** The `x` of the quartile formula `(n+1)·(x/4)`. */
  function Quarters(q: Quart): int
  {
    match q
    case Q1 => 1
    case Median => 2
    case Q3 => 3
  }

  /** `q1pos`, `medianpos`, `q3pos`: the zero-based position `(runs+1)·(x/4) − 1`. */
  function QuartilePos(runs: int, q: Quart): real
  {
    match q
    case Q1 => (runs + 1) as real * 0.25 - 1.0
    case Median => (runs + 1) as real * 0.50 - 1.0
    case Q3 => (runs + 1) as real * 0.75 - 1.0
  }

  /** Java's `(int)` cast of a double: truncation toward zero. */
  function Trunc(r: real): int
  {
    if r >= 0.0 then r.Floor else -((-r).Floor)
  }

  /** The test `pos - (int)pos < 0.1` that decides between reading one element and averaging two. */
  predicate AtExactPos(runs: int, q: Quart)
  {
    var pos := QuartilePos(runs, q);
    pos - Trunc(pos) as real < 0.1
  }

  /**
   * A quartile of the sorted copy `s`: `s[(int)pos]` when the position is "exact", otherwise
   * the truncated average of `s[(int)(pos+1)]` and `s[(int)pos]`. `None` stands for the
   * `ArrayIndexOutOfBoundsException` that an index outside `[0, |s|)` raises.
   */
  function Quartile(s: seq<int>, q: Quart): Option<int>
  {
    var pos := QuartilePos(|s|, q);
    var lo := Trunc(pos);
    if pos - lo as real < 0.1 then
      if 0 <= lo < |s| then Some(s[lo]) else None
    else
      var hi := Trunc(pos + 1.0);
      if 0 <= hi < |s| && 0 <= lo < |s| then Some(TruncDiv(s[hi] + s[lo], 2)) else None
  }

  lemma PosInQuarters(runs: int, q: Quart)
    ensures QuartilePos(runs, q) == ((runs + 1) * Quarters(q)) as real / 4.0 - 1.0
  {
  }

  /** For a position `k/4 − 1` with `k >= 4`: truncation is floor, and the 0.1 test means `4 | k`. */
  lemma QuarterPosition(k: int)
    requires k >= 4
    ensures Trunc(k as real / 4.0 - 1.0) == k / 4 - 1
    ensures Trunc(k as real / 4.0 - 1.0 + 1.0) == k / 4
    ensures (k as real / 4.0 - 1.0) - (k / 4 - 1) as real < 0.1 <==> k % 4 == 0
  {
    var d, m := k / 4, k % 4;
    assert k == 4 * d + m && 0 <= m < 4 && d >= 1;
    var pos := k as real / 4.0 - 1.0;
    assert pos == (d - 1) as real + m as real / 4.0;
    assert (d - 1) as real <= pos < d as real;
    assert pos.Floor == d - 1;
    assert (pos + 1.0).Floor == d;
  }

  /**
   * For at least three samples every index the quartile code reads is inside the array:
   * with `k = (runs+1)·x`, the position is exact iff `k` is divisible by 4 and then the
   * quartile is `s[k/4 − 1]`; otherwise it averages `s[k/4]` and `s[k/4 − 1]`.
   */
  lemma QuartileAt(s: seq<int>, q: Quart)
    requires |s| >= 3
    ensures var k := (|s| + 1) * Quarters(q);
      1 <= k / 4 &&
      (k % 4 == 0 ==> k / 4 <= |s|) &&
      (k % 4 != 0 ==> k / 4 <= |s| - 1) &&
      (AtExactPos(|s|, q) <==> k % 4 == 0) &&
      Quartile(s, q) == Some(if k % 4 == 0 then s[k / 4 - 1] else TruncDiv(s[k / 4] + s[k / 4 - 1], 2))
  {
    var k := (|s| + 1) * Quarters(q);
    PosInQuarters(|s|, q);
    QuarterPosition(k);
    assert 4 <= k <= 4 * |s|;
  }

  /** Below three samples the Q3 branch reads past the end (index 1 for one sample, 2 for two). */
  lemma SmallRuns(s: seq<int>)
    requires |s| < 3
    ensures Quartile(s, Q3) == None
    ensures |s| == 1 ==> Quartile(s, Q1) == Some(s[0]) && Quartile(s, Median) == Some(s[0])
    ensures |s| == 2 ==> Quartile(s, Q1) == Some(s[0]) && Quartile(s, Median) == Some(TruncDiv(s[1] + s[0], 2))
  {
    if |s| == 0 {
      assert QuartilePos(0, Q3) == -0.25;
      assert Trunc(-0.25) == 0;
    } else if |s| == 1 {
      assert QuartilePos(1, Q1) == -0.5 && Trunc(-0.5) == 0;
      assert QuartilePos(1, Median) == 0.0 && Trunc(0.0) == 0;
      assert QuartilePos(1, Q3) == 0.5 && Trunc(0.5) == 0 && Trunc(1.5) == 1;
    } else {
      assert QuartilePos(2, Q1) == -0.25 && Trunc(-0.25) == 0;
      assert QuartilePos(2, Median) == 0.5 && Trunc(0.5) == 0 && Trunc(1.5) == 1;
      assert QuartilePos(2, Q3) == 1.25 && Trunc(1.25) == 1 && Trunc(2.25) == 2;
    }
  }

  /** The third quartile is defined exactly when there are at least three samples. */
  lemma Q3DefinedIff(s: seq<int>)
    ensures Quartile(s, Q3).Some? <==> |s| >= 3
  {
    if |s| >= 3 { QuartileAt(s, Q3); } else { SmallRuns(s); }
  }

  /** The truncated average of two ordered values lies between them. */
  lemma AverageBetween(a: int, b: int)
    requires a <= b
    ensures a <= TruncDiv(b + a, 2) <= b
  {
  }

  /** Worked tie rule: nine samples give `s[4]` as median, ten give the average of `s[4]` and `s[5]`. */
  lemma MedianTieRule(s: seq<int>, t: seq<int>)
    requires |s| == 9 && |t| == 10
    ensures Quartile(s, Median) == Some(s[4])
    ensures Quartile(t, Median) == Some(TruncDiv(t[5] + t[4], 2))
  {
    QuartileAt(s, Median);
    QuartileAt(t, Median);
  }

  /**
   * `v` lies between the element at `k/4 − 1` and the one at `k/4` (or equals the first when
   * `4 | k`): where a quartile with `k = (runs+1)·x` falls.
   */
  predicate Bracketed(s: seq<int>, k: int, v: int)
  {
    && 1 <= k / 4 <= |s|
    && (k % 4 != 0 ==> k / 4 < |s|)
    && s[k / 4 - 1] <= v
    && v <= s[if k % 4 == 0 then k / 4 - 1 else k / 4]
  }

  /** A quartile of sorted samples lies between the element at `(int)pos` and the next one. */
  lemma QuartileBetween(s: seq<int>, q: Quart)
    requires Sorted(s) && |s| >= 3
    ensures Quartile(s, q).Some? && Bracketed(s, (|s| + 1) * Quarters(q), Quartile(s, q).value)
  {
    QuartileAt(s, q);
    var k := (|s| + 1) * Quarters(q);
    if k % 4 != 0 { AverageBetween(s[k / 4 - 1], s[k / 4]); }
  }

  /** For at least three sorted samples: min <= Q1 <= median <= Q3 <= max. */
  lemma QuartilesOrdered(s: seq<int>)
    requires Sorted(s) && |s| >= 3
    ensures s[0] <= Quartile(s, Q1).value <= Quartile(s, Median).value
    ensures Quartile(s, Median).value <= Quartile(s, Q3).value <= s[|s| - 1]
  {
    var k1, k2, k3 := (|s| + 1) * Quarters(Q1), (|s| + 1) * Quarters(Median), (|s| + 1) * Quarters(Q3);
    assert k2 / 4 >= k1 / 4 + 1 && k3 / 4 >= k2 / 4 + 1 by {
      assert k1 == |s| + 1 && k2 == k1 + k1 && k3 == k2 + k1;
      assert k1 / 4 >= 1;
    }
    QuartileBetween(s, Q1);
    QuartileBetween(s, Median);
    QuartileBetween(s, Q3);
    BracketsOrdered(s, k1, k2, k3, Quartile(s, Q1).value, Quartile(s, Median).value, Quartile(s, Q3).value);
  }

  /** Values bracketed at increasingly far positions of sorted samples are ordered. */
  lemma BracketsOrdered(s: seq<int>, k1: int, k2: int, k3: int, a: int, b: int, c: int)
    requires Sorted(s)
    requires Bracketed(s, k1, a) && Bracketed(s, k2, b) && Bracketed(s, k3, c)
    requires k2 / 4 >= k1 / 4 + 1 && k3 / 4 >= k2 / 4 + 1
    ensures s[0] <= a <= b <= c <= s[|s| - 1]
  {
    SortedLe(s, 0, k1 / 4 - 1);
    SortedLe(s, if k1 % 4 == 0 then k1 / 4 - 1 else k1 / 4, k2 / 4 - 1);
    SortedLe(s, if k2 % 4 == 0 then k2 / 4 - 1 else k2 / 4, k3 / 4 - 1);
    SortedLe(s, if k3 % 4 == 0 then k3 / 4 - 1 else k3 / 4, |s| - 1);
  }

  lemma SortedLe(s: seq<int>, i: int, j: int)
    requires Sorted(s) && 0 <= i <= j < |s|
    ensures s[i] <= s[j]
  {
  }

  // ---------------------------------------------------------------------------
  // The whole summary

  /** The values the constructor stores, apart from the time breakdown. */
  datatype Summary = Summary(runs: int, mean: int, min: int, q1: int, median: int, q3: int,
                             max: int, stddev: int, timeSum: int)

  /**
   * What the constructor computes from the sorted copy `s`; `None` when it throws (an empty
   * array, or fewer than three samples, for which the Q3 branch reads out of bounds).
   */
  function SummaryOf(s: seq<int>): Option<Summary>
  {
    var q1, median, q3 := Quartile(s, Q1), Quartile(s, Median), Quartile(s, Q3);
    if |s| == 0 || q1.None? || median.None? || q3.None? then None
    else
      var runs := |s|;
      var timeSum := Sum(s);
      var mean := TruncDiv(timeSum, runs);
      var variance := TruncDiv(SquaredDeviations(s, mean), runs);
      Some(Summary(runs, mean, s[0], q1.value, median.value, q3.value, s[runs - 1], ISqrt(variance), timeSum))
  }

  /** What the constructor computes from the samples `data`. */
  function Summarize(data: seq<int>): Option<Summary>
  {
    SummaryOf(SortedCopy(data))
  }

  /** The constructor succeeds exactly for three or more samples. */
  lemma SummaryDefined(data: seq<int>)
    ensures Summarize(data).Some? <==> |data| >= 3
  {
    var s := SortedCopy(data);
    Q3DefinedIff(s);
    if |s| >= 3 {
      QuartileAt(s, Q1);
      QuartileAt(s, Median);
    }
  }

  /** For three or more sorted samples, the summary read off `s`. */
  lemma SummaryOfSorted(s: seq<int>)
    requires |s| >= 3
    ensures Quartile(s, Q1).Some? && Quartile(s, Median).Some? && Quartile(s, Q3).Some?
    ensures var mean := TruncDiv(Sum(s), |s|);
      SummaryOf(s) == Some(Summary(|s|, mean, s[0], Quartile(s, Q1).value, Quartile(s, Median).value,
                                   Quartile(s, Q3).value, s[|s| - 1],
                                   ISqrt(TruncDiv(SquaredDeviations(s, mean), |s|)), Sum(s)))
  {
    assert Quartile(s, Q1).Some? && Quartile(s, Median).Some? && Quartile(s, Q3).Some? by {
      QuartileAt(s, Q1);
      QuartileAt(s, Median);
      QuartileAt(s, Q3);
    }
  }

  /** For three or more samples, min and max are the smallest and the largest sample. */
  lemma SummaryMinMax(data: seq<int>)
    requires |data| >= 3
    ensures Summarize(data).Some?
    ensures var r := Summarize(data).value;
      && r.runs == |data|
      && r.min in data && r.max in data
      && forall i :: 0 <= i < |data| ==> r.min <= data[i] <= r.max
  {
    SummaryDefined(data);
    SortedPermutationBounds(SortedCopy(data), data);
  }

  /** The total is the exact sum of the samples (in any order) and the mean its truncated quotient. */
  lemma SummaryTotal(data: seq<int>)
    requires |data| >= 3
    ensures Summarize(data).Some?
    ensures Summarize(data).value.timeSum == Sum(data)
    ensures Summarize(data).value.mean == TruncDiv(Sum(data), |data|)
  {
    SummaryDefined(data);
    SumOfPermutation(SortedCopy(data), data, Identity);
  }

  /** For three or more samples: min <= Q1 <= median <= Q3 <= max. */
  lemma SummaryOrdered(data: seq<int>)
    requires |data| >= 3
    ensures Summarize(data).Some?
    ensures var r := Summarize(data).value; r.min <= r.q1 <= r.median <= r.q3 <= r.max
  {
    SummaryDefined(data);
    QuartilesOrdered(SortedCopy(data));
  }

  /** The standard deviation is the integer square root of ⌊Σ(x − mean)² / runs⌋. */
  lemma SummaryStddev(data: seq<int>)
    requires |data| >= 3
    ensures Summarize(data).Some?
    ensures var r := Summarize(data).value;
      var v := SquaredDeviations(data, r.mean) / |data|;
      r.stddev * r.stddev <= v < (r.stddev + 1) * (r.stddev + 1)
  {
    SummaryDefined(data);
    var s := SortedCopy(data);
    SumOfPermutation(s, data, DeviationFrom(Summarize(data).value.mean));
  }

  /** Identical samples: the mean is the common value and the standard deviation is 0. */
  lemma IdenticalSamples(data: seq<int>, c: int)
    requires |data| >= 3
    requires forall i :: 0 <= i < |data| ==> data[i] == c
    ensures Summarize(data).value.mean == c
    ensures Summarize(data).value.stddev == 0
  {
    var s := SortedCopy(data);
    SummaryDefined(data);
    forall i | 0 <= i < |s| ensures s[i] == c {
      assert s[i] in multiset(data);
      var j :| 0 <= j < |data| && data[j] == s[i];
    }
    SumOfConstant(s, c, Identity);
    assert TruncDiv(c * |s|, |s|) == c by { MultipleDiv(c, |s|); }
    SumOfConstant(s, c, DeviationFrom(c));
    ISqrtUnique(0, 0);
  }

  /** Over `n` copies of `c`, Σ f(x) is `n · f(c)`. */
  lemma {:induction false} SumOfConstant(s: seq<int>, c: int, f: int -> int)
    requires forall i :: 0 <= i < |s| ==> s[i] == c
    ensures SumOf(s, f) == f(c) * |s|
  {
    if s != [] {
      SumOfConstant(s[..|s| - 1], c, f);
    }
  }

  lemma MultipleDiv(c: int, n: int)
    requires n > 0
    ensures TruncDiv(c * n, n) == c
  {
    var q := TruncDiv(c * n, n);
    var d := c - q;
    assert d * n == c * n - q * n;
    ProductAwayFromZero(d, n);
  }

  lemma ProductAwayFromZero(d: int, n: int)
    requires n > 0
    ensures d >= 1 ==> d * n >= n
    ensures d <= -1 ==> d * n <= -n
  {
  }

  // ---------------------------------------------------------------------------
  // Time breakdown (lines 81-88)

  const NANOS_PER_HOUR: int := 3_600_000_000_000
  const NANOS_PER_MINUTE: int := 60_000_000_000
  const NANOS_PER_SECOND: int := 1_000_000_000
  const NANOS_PER_MILLI: int := 1_000_000

  /** The nanoseconds that an hours/minutes/seconds/milliseconds reading stands for. */
  function Nanos(h: int, m: int, s: int, ms: int): int
  {
    h * NANOS_PER_HOUR + m * NANOS_PER_MINUTE + s * NANOS_PER_SECOND + ms * NANOS_PER_MILLI
  }

  /**
   * Successive truncating division and remainder of the total by an hour, a minute, a second
   * and a millisecond. For a non-negative total the reading is exact up to the sub-millisecond
   * rest; for a negative one every part carries the sign of the total.
   */
  method Breakdown(timeSum: int) returns (h: int, m: int, s: int, ms: int)
    ensures timeSum >= 0 ==> h >= 0 && 0 <= m < 60 && 0 <= s < 60 && 0 <= ms < 1000
    ensures timeSum >= 0 ==> Nanos(h, m, s, ms) <= timeSum < Nanos(h, m, s, ms) + NANOS_PER_MILLI
    ensures timeSum < 0 ==> h <= 0 && -60 < m <= 0 && -60 < s <= 0 && -1000 < ms <= 0
    ensures timeSum < 0 ==> Nanos(h, m, s, ms) - NANOS_PER_MILLI < timeSum <= Nanos(h, m, s, ms)
  {
    var remainder := timeSum;
    h := TruncDiv(remainder, NANOS_PER_HOUR);
    remainder := TruncMod(remainder, NANOS_PER_HOUR);
    m := TruncDiv(remainder, NANOS_PER_MINUTE);
    remainder := TruncMod(remainder, NANOS_PER_MINUTE);
    s := TruncDiv(remainder, NANOS_PER_SECOND);
    remainder := TruncMod(remainder, NANOS_PER_SECOND);
    ms := TruncDiv(remainder, NANOS_PER_MILLI);
  }

  /** The breakdown is unique: any reading within these bounds is the one `Breakdown` returns. */
  lemma BreakdownUnique(t: int, h: int, m: int, s: int, ms: int, h': int, m': int, s': int, ms': int)
    requires h >= 0 && 0 <= m < 60 && 0 <= s < 60 && 0 <= ms < 1000
    requires h' >= 0 && 0 <= m' < 60 && 0 <= s' < 60 && 0 <= ms' < 1000
    requires Nanos(h, m, s, ms) <= t < Nanos(h, m, s, ms) + NANOS_PER_MILLI
    requires Nanos(h', m', s', ms') <= t < Nanos(h', m', s', ms') + NANOS_PER_MILLI
    ensures h == h' && m == m' && s == s' && ms == ms'
  {
  }

  // ---------------------------------------------------------------------------
  // The class

  /** `Statistics`: the thirteen fields the Java constructor assigns; the getters read them. */
  class Statistics {
    var runs: int
    var mean: int
    var min: int
    var q1: int
    var median: int
    var q3: int
    var max: int
    var stddev: int
    var timeSum: int
    var timeSumH: int
    var timeSumM: int
    var timeSumS: int
    var timeSumMs: int

    /** What the getters `getRuns` … `getTimeSum` return. */
    function Values(): Summary
      reads this
    {
      Summary(runs, mean, min, q1, median, q3, max, stddev, timeSum)
    }

    /** The Java constructor throws for fewer than three samples (see `SummaryDefined`). */
    constructor (data: array<int>)
      requires data.Length >= 3
      ensures Summarize(data[..]) == Some(Values())
      ensures min <= q1 <= median <= q3 <= max
      ensures timeSum >= 0 ==> timeSumH >= 0 && 0 <= timeSumM < 60 && 0 <= timeSumS < 60 && 0 <= timeSumMs < 1000
      ensures timeSum >= 0 ==>
        Nanos(timeSumH, timeSumM, timeSumS, timeSumMs) <= timeSum < Nanos(timeSumH, timeSumM, timeSumS, timeSumMs) + NANOS_PER_MILLI
      ensures timeSum < 0 ==> timeSumH <= 0 && -60 < timeSumM <= 0 && -60 < timeSumS <= 0 && -1000 < timeSumMs <= 0
      ensures timeSum < 0 ==>
        Nanos(timeSumH, timeSumM, timeSumS, timeSumMs) - NANOS_PER_MILLI < timeSum <= Nanos(timeSumH, timeSumM, timeSumS, timeSumMs)
    {
      var sorted := SortedCopy(data[..]);
      var n := |sorted|;
      SummaryOfSorted(sorted);
      QuartilesOrdered(sorted);

      var total := TotalTime(sorted);
      var average := TruncDiv(total, n);

      var first, second, third := Quartile(sorted, Q1).value, Quartile(sorted, Median).value, Quartile(sorted, Q3).value;

      var unnormalizedVariance := UnnormalizedVariance(sorted, average);
      var deviation := ISqrt(TruncDiv(unnormalizedVariance, n));
      var h, m, s, ms := Breakdown(total);

      runs, mean, min, q1, median, q3, max, stddev, timeSum :=
        n, average, sorted[0], first, second, third, sorted[n - 1], deviation, total;
      timeSumH, timeSumM, timeSumS, timeSumMs := h, m, s, ms;
    }
  }

  /** The worked example: samples 100, 200, 300, 400, 500 nanoseconds. */
  lemma FiveSampleExample()
    ensures Summarize([100, 200, 300, 400, 500]) == Some(Summary(5, 300, 100, 150, 300, 450, 500, 141, 1500))
  {
    var s := [100, 200, 300, 400, 500];
    assert Summarize(s) == SummaryOf(s) by { SortedCopyOfSorted(s); }
    FiveSampleSums(s);
    FiveSampleQuartiles(s);
    SqrtExample();
    assert |s| == 5 && s[0] == 100 && s[4] == 500;
    SummaryOfSorted(s);
  }

  lemma SqrtExample()
    ensures ISqrt(20000) == 141
  {
    assert 141 * 141 == 19881 && 142 * 142 == 20164;
    ISqrtUnique(20000, 141);
  }

  lemma FiveSampleQuartiles(s: seq<int>)
    requires s == [100, 200, 300, 400, 500]
    ensures Quartile(s, Q1) == Some(150)
    ensures Quartile(s, Median) == Some(300)
    ensures Quartile(s, Q3) == Some(450)
  {
    QuartileAt(s, Q1);
    QuartileAt(s, Median);
    QuartileAt(s, Q3);
    assert TruncDiv(300, 2) == 150;
    assert TruncDiv(900, 2) == 450;
  }

  lemma FiveSampleSums(s: seq<int>)
    requires s == [100, 200, 300, 400, 500]
    ensures Sum(s) == 1500 && TruncDiv(1500, 5) == 300
    ensures SquaredDeviations(s, 300) == 100000 && TruncDiv(100000, 5) == 20000
  {
    var f := DeviationFrom(300);
    assert f(100) == 40000 && f(200) == 10000 && f(300) == 0 && f(400) == 10000 && f(500) == 40000;
    assert s[..4][..3] == s[..3] && s[..3][..2] == s[..2] && s[..2][..1] == s[..1] && s[..1][..0] == [];
    assert s[..4] == [100, 200, 300, 400] && s[..3] == [100, 200, 300] && s[..2] == [100, 200] && s[..1] == [100];
    assert SumOf(s[..1], Identity) == 100;
    assert SumOf(s[..1], f) == SumOf(s[..1][..0], f) + f(100);
    assert SumOf(s[..1], f) == 40000;
    assert SumOf(s[..2], Identity) == 300 && SumOf(s[..2], f) == 50000;
    assert SumOf(s[..3], Identity) == 600 && SumOf(s[..3], f) == 50000;
    assert SumOf(s[..4], Identity) == 1000 && SumOf(s[..4], f) == 60000;
  }
}
