/**
 * LeetCode problem 1 ("Two Sum"): find two different positions of `nums`
 * whose values add up to `target`.  The solution checks every pair of
 * positions in the order of two nested loops and returns the first pair it
 * meets, or an empty array when there is none.
 *
 * The returned Java `int[]` is a fresh array that is only printed; it is a
 * sequence here.  `int` overflow in `nums[i] + nums[j]` is not modelled.
 */
module LeetCode {

  /** Positions `i < j` of `nums` whose values add up to `target`. */
  predicate IsPair(nums: seq<int>, target: int, i: int, j: int)
  {
    0 <= i < j < |nums| && nums[i] + nums[j] == target
  }

  /** The nested loops visit `(i, j)` before `(i2, j2)`. */
  predicate Before(i: int, j: int, i2: int, j2: int)
  {
    i < i2 || (i == i2 && j < j2)
  }

  /** The first position from `from` on that pairs with `i`, or `|nums|` when there is none (the inner loop). */
  function PartnerFrom(nums: seq<int>, target: int, i: nat, from: nat): (j: nat)
    requires i < |nums| && from <= |nums|
    ensures from <= j <= |nums|
    ensures j < |nums| ==> nums[i] + nums[j] == target
    ensures forall k :: from <= k < j ==> nums[i] + nums[k] != target
    decreases |nums| - from
  {
    if from == |nums| then |nums|
    else if nums[i] + nums[from] == target then from
    else PartnerFrom(nums, target, i, from + 1)
  }

  /** The pair the loops return when the outer loop starts at `i` (the outer loop). */
  function PairFrom(nums: seq<int>, target: int, i: nat): seq<int>
    requires i <= |nums|
    decreases |nums| - i
  {
    if i == |nums| then []
    else
      var j := PartnerFrom(nums, target, i, i + 1);
      if j < |nums| then [i, j] else PairFrom(nums, target, i + 1)
  }

  /** The answer of `twoSum`: the first pair in scan order, or `[]`. */
  function FirstPair(nums: seq<int>, target: int): seq<int>
  {
    PairFrom(nums, target, 0)
  }

  /**
   * From outer position `i` on, the loops find a real pair, no pair visited
   * earlier sums to `target`, and `[]` comes back exactly when no pair
   * starting at `i` or later exists.
   */
  lemma {:induction false} PairFromSpec(nums: seq<int>, target: int, i: nat)
    requires i <= |nums|
    ensures var r := PairFrom(nums, target, i);
      && (r == [] || |r| == 2)
      && (|r| == 2 ==> i <= r[0] && IsPair(nums, target, r[0], r[1]))
      && (|r| == 2 ==> forall a, b :: i <= a && Before(a, b, r[0], r[1]) ==> !IsPair(nums, target, a, b))
      && (r == [] <==> forall a, b :: i <= a ==> !IsPair(nums, target, a, b))
    decreases |nums| - i
  {
    if i < |nums| {
      var j := PartnerFrom(nums, target, i, i + 1);
      PairFromSpec(nums, target, i + 1);
      if j == |nums| {
        assert forall b :: !IsPair(nums, target, i, b);
      } else {
        assert IsPair(nums, target, i, j);
      }
    }
  }

  /**
   * What `twoSum` promises: a non-empty answer `[i, j]` has `i < j` and
   * `nums[i] + nums[j] == target`, no pair the loops visit earlier works,
   * and the answer is empty exactly when no pair works.
   */
  lemma FirstPairSpec(nums: seq<int>, target: int)
    ensures var r := FirstPair(nums, target);
      && (r == [] || |r| == 2)
      && (|r| == 2 ==> IsPair(nums, target, r[0], r[1]))
      && (|r| == 2 ==> forall a, b :: Before(a, b, r[0], r[1]) ==> !IsPair(nums, target, a, b))
      && (r == [] <==> forall a, b :: !IsPair(nums, target, a, b))
  {
    PairFromSpec(nums, target, 0);
  }

  /** Solution.twoSum: the two nested loops with their early return; `nums` is only read. */
  method TwoSum(nums: array<int>, target: int) returns (r: seq<int>)
    ensures r == FirstPair(nums[..], target)
  {
    ghost var s := nums[..];
    var i := 0;
    while i < nums.Length
      invariant 0 <= i <= nums.Length
      invariant PairFrom(s, target, 0) == PairFrom(s, target, i)
    {
      var j := i + 1;
      while j < nums.Length
        invariant i + 1 <= j <= nums.Length
        invariant PartnerFrom(s, target, i, i + 1) == PartnerFrom(s, target, i, j)
      {
        if nums[i] + nums[j] == target {
          return [i, j];
        }
        j := j + 1;
      }
      i := i + 1;
    }
    return [];
  }

  /** The answers for the three sample inputs of the problem. */
  lemma SampleAnswers()
    ensures FirstPair([2, 7, 11, 15], 9) == [0, 1]
    ensures FirstPair([3, 2, 4], 6) == [1, 2]
    ensures FirstPair([3, 3], 6) == [0, 1]
    ensures FirstPair([], 0) == []
  {
    assert PartnerFrom([3, 2, 4], 6, 0, 1) == 3;
  }

  /**
   * p1.main(int): the switch picks the sample input of the test number, all
   * other numbers keep the empty array and target 0; the printed array is
   * the answer of `twoSum`.
   */
  method RunTest(test: int) returns (output: seq<int>)
    ensures output == if test == 1 || test == 3 then [0, 1] else if test == 2 then [1, 2] else []
  {
    var nums := new int[0];
    var target := 0;
    match test {
      case 1 =>
        nums := new int[] [2, 7, 11, 15];
        target := 9;
        assert nums[..] == [2, 7, 11, 15];
      case 2 =>
        nums := new int[] [3, 2, 4];
        target := 6;
        assert nums[..] == [3, 2, 4];
      case 3 =>
        nums := new int[] [3, 3];
        target := 6;
        assert nums[..] == [3, 3];
      case _ =>
        assert nums[..] == [];
    }
    SampleAnswers();
    output := TwoSum(nums, target);
  }
}
