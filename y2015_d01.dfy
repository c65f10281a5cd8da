/**
 * Advent of Code 2015, day 1 ("Not Quite Lisp"): Santa walks through the
 * instruction line `input[0]`; '(' sends him one floor up and every other
 * character one floor down.  Part 1 reports the final floor, part 2 the
 * 1-based step at which he first enters the basement (floor -1), or 0.
 *
 * Each run's console output becomes returned values: `trace` holds the floor
 * printed after every step, and the final answer is an `Option` whose `None`
 * stands for the exception Java raises when `input` has no line at all.
 */
module Floors {
  import opened Wrappers

  /** The floor change caused by one instruction character. */
  function Step(c: char): (d: int)
    ensures d == 1 <==> c == '('
    ensures d == 1 || d == -1
  {
    if c == '(' then 1 else -1
  }

  /** The floor reached after following every character of `s`, starting at floor 0. */
  function Floor(s: string): int
  {
    if s == [] then 0 else Floor(s[..|s| - 1]) + Step(s[|s| - 1])
  }

  /** The number of opening parentheses in `s`, an independent description of the walk. */
  function Opens(s: string): nat
  {
    multiset(s)['(']
  }

  /** After k steps the floor is the number of '(' seen minus the number of other characters seen. */
  lemma {:induction false} FloorCount(s: string)
    ensures Opens(s) <= |s|
    ensures Floor(s) == Opens(s) - (|s| - Opens(s))
  {
    if s != [] {
      var p, c := s[..|s| - 1], s[|s| - 1];
      assert s == p + [c];
      FloorCount(p);
      assert multiset(s) == multiset(p) + multiset{c};
    }
  }

  /** Consecutive prefixes differ by exactly one floor. */
  lemma FloorStep(s: string, k: nat)
    requires k < |s|
    ensures Floor(s[..k + 1]) == Floor(s[..k]) + Step(s[k])
  {
    assert s[..k + 1][..k] == s[..k];
  }

  /** The floor after k steps is k away from 0 at most and has the parity of k. */
  lemma FloorParity(s: string)
    ensures -|s| <= Floor(s) <= |s|
    ensures (Floor(s) + |s|) % 2 == 0
  {
    FloorCount(s);
  }

  /** Part 1 (y2015_d01p1.main): the floor after every step and the final floor. */
  method FinalFloor(input: seq<string>) returns (result: Option<int>, trace: seq<int>)
    ensures result.None? <==> input == []
    ensures input == [] ==> trace == []
    ensures input != [] ==> result == Some(Floor(input[0]))
    ensures input != [] ==> |trace| == |input[0]|
    ensures input != [] ==> forall k :: 0 <= k < |trace| ==> trace[k] == Floor(input[0][..k + 1])
  {
    if input == [] {
      return None, [];
    }
    var line := input[0];
    var floor := 0;
    trace := [];
    var step := 0;
    while step < |line|
      invariant 0 <= step <= |line|
      invariant floor == Floor(line[..step])
      invariant |trace| == step
      invariant forall k :: 0 <= k < step ==> trace[k] == Floor(line[..k + 1])
    {
      FloorStep(line, step);
      if line[step] == '(' {
        floor := floor + 1;
      } else {
        floor := floor - 1;
      }
      trace := trace + [floor];
      step := step + 1;
    }
    assert line[..|line|] == line;
    result := Some(floor);
  }

  /** Some non-empty prefix of `s` ends in the basement. */
  predicate ReachesBasement(s: string)
  {
    exists j :: 1 <= j <= |s| && Floor(s[..j]) == -1
  }

  /** Part 2 (y2015_d01p2.main): the 1-based step at which the floor first becomes -1, or 0. */
  method BasementStep(input: seq<string>) returns (result: Option<nat>, trace: seq<int>)
    ensures result.None? <==> input == []
    ensures input == [] ==> trace == []
    ensures input != [] ==> var s, k := input[0], result.value;
      && k <= |s|
      && (k == 0 <==> !ReachesBasement(s))
      && (k > 0 ==> Floor(s[..k]) == -1)
      && (forall j :: 1 <= j < k ==> Floor(s[..j]) != -1)
      && |trace| == (if k == 0 then |s| else k)
      && (forall j :: 0 <= j < |trace| ==> trace[j] == Floor(s[..j + 1]))
  {
    if input == [] {
      return None, [];
    }
    var line := input[0];
    var floor := 0;
    var basementStepIndex := 0;
    trace := [];
    var step := 0;
    while step < |line|
      invariant 0 <= step <= |line|
      invariant floor == Floor(line[..step])
      invariant |trace| == step
      invariant forall k :: 0 <= k < step ==> trace[k] == Floor(line[..k + 1])
      invariant forall j :: 1 <= j <= step ==> Floor(line[..j]) != -1
    {
      FloorStep(line, step);
      if line[step] == '(' {
        floor := floor + 1;
      } else {
        floor := floor - 1;
      }
      trace := trace + [floor];
      if floor == -1 {
        basementStepIndex := step + 1;
        break;
      }
      step := step + 1;
    }
    result := Some(basementStepIndex);
  }

  /** The basement can only be entered after an odd number of steps. */
  lemma BasementStepOdd(s: string, k: nat)
    requires 1 <= k <= |s| && Floor(s[..k]) == -1
    ensures k % 2 == 1
  {
    FloorParity(s[..k]);
  }

  /**
   * Since the floor moves by one per step from 0, the walk never goes below
   * ground exactly when it never reaches floor -1: a result of 0 means Santa
   * stayed at floor 0 or above throughout.
   */
  lemma {:induction false} NeverBelowGround(s: string)
    ensures !ReachesBasement(s) <==> forall j :: 0 <= j <= |s| ==> Floor(s[..j]) >= 0
  {
    if s == [] {
      assert forall j :: 0 <= j <= |s| ==> s[..j] == [];
    } else {
      var p := s[..|s| - 1];
      NeverBelowGround(p);
      assert forall j :: 0 <= j <= |p| ==> p[..j] == s[..j];
      assert s[..|s|] == s;
      FloorStep(s, |s| - 1);
      if !ReachesBasement(s) {
        assert !ReachesBasement(p);
        assert Floor(s) != -1;
      }
    }
  }
}
