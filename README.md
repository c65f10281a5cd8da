# mySolveKit in Dafny

mySolveKit is a Java runner for competitive-programming solutions. It has three parts:

- **The launcher** (`Main.java`). It reads one argument of the form `{Platform}.{Name}-{Test}[B{N}][S]`, validates it, and runs or benchmarks a solution.
- **The statistics engine** (`Statistics.java`). It summarises benchmark runtimes: min, max, total, mean, quartiles, population standard deviation, and the total broken down into hours, minutes, seconds and milliseconds.
- **The solutions** to a handful of problems from Advent of Code, LeetCode, Codeforces, AtCoder, Project Euler, UVa and SPOJ.

This project models the launcher's parsing and validation, the trimming of benchmark runtimes to their last 80%, the statistics constructor and the solutions listed below. It proves what each of them computes.

Modules, one per file:

- `Wrappers` (`wrappers.dfy`): the `Option` type. `None` stands for a Java exception.
- `JavaText` (`java_text.dfy`): the parts of the Java library that the core relies on. These are `String.indexOf`, `substring`, `trim`, `StringTokenizer`, `String.split`, `Integer.parseInt`, `Long.parseLong`, `Integer.toString` and truncating `/` and `%`.
- `Stats` (`statistics.dfy`): `Statistics.java`. It is a class with the thirteen fields the constructor assigns. The constructor is specified by the pure function `Summarize`.
- `Launcher` (`main.dfy`): `Main.java` up to the point where a platform handler runs the solution.
- `Floors`, `WrappingPaper`, `Deliveries` (`y2015_d01.dfy`, `y2015_d02.dfy`, `y2015_d03.dfy`): Advent of Code 2015 days 1 (both parts), 2 and 3.
- `LeetCode` (`leetcode_p1.dfy`): Two Sum.
- `TheatreSquare` (`codeforces_p1a.dfy`): Codeforces 1A, with its `FastScanner` as a class.
- `Isosceles` (`atcoder_abc424a.dfy`): AtCoder ABC424 A.
- `MultiplesOfThreeOrFive`, `EvenFibonacci` (`projecteuler_p1.dfy`, `projecteuler_p2.dfy`): Project Euler 1 and 2.
- `ThreeNPlusOne` (`uva_p100.dfy`): UVa 100.
- `LifeUniverseEverything` (`spoj_p1.dfy`): SPOJ 1.

Conventions:

- **Input and output.** Standard input and `String[] input` are sequences of lines. What a solution prints becomes its return value. A solution that prints one line per step also returns a `trace` of those values.
- **Integers.** Java integers are unbounded here (see "Left out").
- **Loops and arrays.** Loops that update variables are methods with loop invariants. Arrays the source mutates in place (the Euler 2 window, the day 2 `dimensions` and `areas`, the day 3 coordinates, the launcher's `args`) stay arrays.
- **Day 3 houses.** The houses are `House` objects on the heap. Their list is a sequence that the operations reassign.
- **Termination of UVa 100.** Whether `cycleLength` terminates is the Collatz conjecture. The model assumes it through a ghost step budget.

The launcher's test-number check (`Main.java` lines 67-69) can never fire. The test number is parsed from a single character, so a successful parse is a digit in [0, 9]. `Launcher.TestCheckUnreachable` proves this.

## Model

| member | source | states |
|---|---|---|
| Stats.Insert | Solutions/src/main/java/Statistics.java:33 | inserting into an ascending sequence gives an ascending sequence one element longer, headed by the new element or by the old head |
| Stats.InsertMultiset | Solutions/src/main/java/Statistics.java:33 | inserting adds exactly one occurrence of the new element and keeps every other element |
| Stats.SortedCopy | Solutions/src/main/java/Statistics.java:33 | the sorted copy is ascending and a permutation of the samples |
| Stats.SortedCopyOfSorted | Solutions/src/main/java/Statistics.java:33 | sorting already ascending samples returns them unchanged |
| Stats.SortedPermutationBounds | Solutions/src/main/java/Statistics.java:33-37 | `data[0]` and `data[runs-1]` of the sorted copy are samples, and they bound every sample |
| Stats.SumOfPermutation | Solutions/src/main/java/Statistics.java:39-42 | a sum over the samples does not depend on their order |
| Stats.TotalTime | Solutions/src/main/java/Statistics.java:39-42 | the accumulation loop returns the exact sum of the sorted copy |
| Stats.UnnormalizedVariance | Solutions/src/main/java/Statistics.java:70-74 | the loop returns Σ(x − mean)² over the sorted copy |
| Stats.ISqrt | Solutions/src/main/java/Statistics.java:79 | the integer square root r satisfies r² ≤ n < (r+1)² |
| Stats.ISqrtUnique | Solutions/src/main/java/Statistics.java:79 | exactly one r satisfies that bracket, so the square root is determined |
| Stats.QuartileAt | Solutions/src/main/java/Statistics.java:45-67 | with three or more samples and k = (runs+1)·x: the 0.1 test holds iff 4 divides k; the quartile is then `s[k/4−1]`, otherwise the truncated average of `s[k/4]` and `s[k/4−1]`; every index read is in bounds |
| Stats.SmallRuns | Solutions/src/main/java/Statistics.java:51-67 | with fewer than three samples, the Q3 branch reads out of bounds; with one or two samples, Q1 and the median take the values given |
| Stats.Q3DefinedIff | Solutions/src/main/java/Statistics.java:63-67 | Q3 is defined iff there are at least three samples |
| Stats.MedianTieRule | Solutions/src/main/java/Statistics.java:57-61 | nine samples give `s[4]` as median; ten give the truncated average of `s[5]` and `s[4]` |
| Stats.QuartileBetween | Solutions/src/main/java/Statistics.java:51-67 | a quartile of sorted samples lies between the element at its truncated position and the next one |
| Stats.QuartilesOrdered | Solutions/src/main/java/Statistics.java:36-67 | min ≤ Q1 ≤ median ≤ Q3 ≤ max for three or more sorted samples |
| Stats.SummaryDefined | Solutions/src/main/java/Statistics.java:31-89 | the constructor succeeds iff there are at least three samples |
| Stats.SummaryMinMax | Solutions/src/main/java/Statistics.java:35-37 | min and max are samples and bound every sample |
| Stats.SummaryTotal | Solutions/src/main/java/Statistics.java:39-43 | timeSum is the exact sum of the samples in any order, and mean is its quotient truncated toward zero |
| Stats.SummaryOrdered | Solutions/src/main/java/Statistics.java:35-67 | min ≤ Q1 ≤ median ≤ Q3 ≤ max for any three or more samples |
| Stats.SummaryStddev | Solutions/src/main/java/Statistics.java:69-79 | stddev is the integer square root of ⌊Σ(x − mean)² / runs⌋ over the samples in any order |
| Stats.IdenticalSamples | Solutions/src/main/java/Statistics.java:39-79 | identical samples have that value as mean and deviation 0 |
| Stats.Breakdown | Solutions/src/main/java/Statistics.java:81-88 | h, m, s, ms carry the total's sign, with \|m\|, \|s\| < 60 and \|ms\| < 1000; they reconstruct the total to within one millisecond |
| Stats.BreakdownUnique | Solutions/src/main/java/Statistics.java:81-88 | at most one reading within those bounds fits a non-negative total |
| Stats.Statistics.constructor | Solutions/src/main/java/Statistics.java:31-89 | the fields are the summary of the samples; the quartiles are ordered; the hours, minutes, seconds and milliseconds of the total are within a millisecond of it, in range and non-negative for a non-negative total, and non-positive (truncated toward zero) for a negative one |
| Stats.FiveSampleExample | Solutions/src/main/java/Statistics.java:31-89 | samples 100..500: mean 300, quartiles 150/300/450, stddev 141, total 1500 |
| Launcher.Substring | Solutions/src/main/java/Main.java:50 | `substring` succeeds iff 0 ≤ begin ≤ end ≤ length, and then returns those characters |
| Launcher.StripSave | Solutions/src/main/java/Main.java:28-33 | a trailing `S` is removed and nothing else changes |
| Launcher.ParseHeader | Solutions/src/main/java/Main.java:48-56 | a header is read iff there is a `.` and the character after the first `-` (the first character when there is no `-`) exists and is a digit; then the platform is the text before the first `.`, the test is that digit's value, and benchmarking is on iff a `B` occurs from that character on |
| Launcher.Launch | Solutions/src/main/java/Main.java:27-94 | the outcome is `Dispatch` of the original argument; `args[0]` loses its save flag in place; the other arguments are unchanged |
| Launcher.TestCheckUnreachable | Solutions/src/main/java/Main.java:67-69 | the out-of-range test-number error is never produced |
| Launcher.AcceptedArgument | Solutions/src/main/java/Main.java:48-94 | an accepted argument has: platform before the first `.`, one of the seven keys; name between `.` and `-`; test digit after `-`; benchmark iff a `B` follows `-`; more than two iterations; save iff a trailing `S` |
| Launcher.UnknownPlatformRejected | Solutions/src/main/java/Main.java:71-74 | a platform outside the seven keys never launches |
| Launcher.DispatchRender | Solutions/src/main/java/Main.java:16-25 | round trip: a well-formed request written as an argument is run or benchmarked exactly as requested, or rejected for too few iterations |
| Launcher.IterationThreshold | Solutions/src/main/java/Main.java:91-94 | a benchmark is accepted iff it asks for at least 3 iterations |
| Launcher.TrimCounts | Solutions/src/main/java/Main.java:100-103 | ⌊0.2n⌋ = n div 5 and ⌈0.8n⌉ = n − n div 5; together they make n, and n ≥ 3 keeps at least 3 |
| Launcher.LastEightyPercent | Solutions/src/main/java/Main.java:100-103 | the new array holds exactly the runtimes after the first ⌊0.2n⌋ |
| Launcher.BenchmarkStatistics | Solutions/src/main/java/Main.java:100-107 | two summaries: all runtimes and the last 80%; the runtimes keep their order |
| Floors.Step | Solutions/src/main/java/AdventOfCode/y2015_d01p1.java:13-17 | `(` goes up one floor and every other character goes down one |
| Floors.FloorCount | Solutions/src/main/java/AdventOfCode/y2015_d01p1.java:11-20 | the floor is the number of `(` minus the number of other characters |
| Floors.FloorParity | Solutions/src/main/java/AdventOfCode/y2015_d01p1.java:11-20 | after k steps the floor lies in [−k, k] and has the parity of k |
| Floors.FinalFloor | Solutions/src/main/java/AdventOfCode/y2015_d01p1.java:10-23 | the final floor of `input[0]`; the printed floor after every step; `None` without input |
| Floors.BasementStep | Solutions/src/main/java/AdventOfCode/y2015_d01p2.java:10-29 | the first 1-based step at which the floor is −1, or 0 iff it never is; the trace stops there |
| Floors.BasementStepOdd | Solutions/src/main/java/AdventOfCode/y2015_d01p2.java:22-25 | the basement is only entered after an odd number of steps |
| Floors.NeverBelowGround | Solutions/src/main/java/AdventOfCode/y2015_d01p2.java:22-28 | a result of 0 means every floor on the way was ≥ 0 |
| WrappingPaper.ParseBoxOfDecimal | Solutions/src/main/java/AdventOfCode/y2015_d02p1.java:18-23 | a line `LxWxH` of `int` decimals parses back to that box |
| WrappingPaper.Slack | Solutions/src/main/java/AdventOfCode/y2015_d02p1.java:25-28 | the slack is one of the three side areas and the smallest of them |
| WrappingPaper.PaperSymmetric | Solutions/src/main/java/AdventOfCode/y2015_d02p1.java:25-33 | the paper needed does not depend on the order of the dimensions |
| WrappingPaper.PaperBounds | Solutions/src/main/java/AdventOfCode/y2015_d02p1.java:30-33 | the paper is at least the surface area |
| WrappingPaper.ParseAllAt | Solutions/src/main/java/AdventOfCode/y2015_d02p1.java:17-23 | line k is parsed on its own into box k |
| WrappingPaper.TotalPaperDefined | Solutions/src/main/java/AdventOfCode/y2015_d02p1.java:17-23 | a total exists iff every line describes a box |
| WrappingPaper.TotalMonotone | Solutions/src/main/java/AdventOfCode/y2015_d02p1.java:15-35 | with non-negative sides, the running total never decreases and stays below the final total |
| WrappingPaper.TotalPrefixFails | Solutions/src/main/java/AdventOfCode/y2015_d02p1.java:17-23 | a malformed line ends the run with no total |
| WrappingPaper.SortThree | Solutions/src/main/java/AdventOfCode/y2015_d02p1.java:28 | sorting `areas` in place makes it ascending and a rearrangement of the three areas |
| WrappingPaper.SlackIsFirst | Solutions/src/main/java/AdventOfCode/y2015_d02p1.java:28-33 | after sorting, `areas[0]` is the smallest side |
| WrappingPaper.BoxPaper | Solutions/src/main/java/AdventOfCode/y2015_d02p1.java:21-33 | one loop body adds surface area plus slack; afterwards `dimensions` holds l, w, h and `areas` holds the three side areas in ascending order |
| WrappingPaper.TotalWrappingPaper | Solutions/src/main/java/AdventOfCode/y2015_d02p1.java:12-38 | the total over all lines; the printed running totals; on a malformed line, the line at which it stops |
| Deliveries.Move | Solutions/src/main/java/AdventOfCode/y2015_d03p1.java:42-59 | only the four arrows move, by one along one axis |
| Deliveries.DeliverFacts | Solutions/src/main/java/AdventOfCode/y2015_d03p1.java:19-30 | a delivery keeps one house per position and adds exactly the current position |
| Deliveries.DeliveriesVisited | Solutions/src/main/java/AdventOfCode/y2015_d03p1.java:32-63 | the house list holds each visited position once, so its size is the number of distinct houses visited |
| Deliveries.DeliveriesPresents | Solutions/src/main/java/AdventOfCode/y2015_d03p1.java:13-30 | presents total 1 plus the number of moves, and every house has at least one |
| Deliveries.House.constructor | Solutions/src/main/java/AdventOfCode/y2015_d03p1.java:13-16 | a new house has its own coordinate array at (0, 0) and one present |
| Deliveries.Clone | Solutions/src/main/java/AdventOfCode/y2015_d03p1.java:26 | `clone()` gives a fresh array with the same contents |
| Deliveries.Search | Solutions/src/main/java/AdventOfCode/y2015_d03p1.java:20-22 | the filtered stream holds only houses at the coordinates; it is empty iff none is there, and starts with the first one |
| Deliveries.AddHouse | Solutions/src/main/java/AdventOfCode/y2015_d03p1.java:24-26 | a new house holding a copy of the coordinates and one present is appended |
| Deliveries.ProcessDelivery | Solutions/src/main/java/AdventOfCode/y2015_d03p1.java:19-30 | the heap list afterwards holds `Deliver` of the list before |
| Deliveries.Step | Solutions/src/main/java/AdventOfCode/y2015_d03p1.java:42-59 | an arrow moves the walker's array in place and delivers there; any other character changes nothing |
| Deliveries.CountHouses | Solutions/src/main/java/AdventOfCode/y2015_d03p1.java:32-64 | the printed count is the size of the value-level house list; the printed coordinates are the positions after each step |
| LeetCode.PartnerFrom | Solutions/src/main/java/LeetCode/p1.java:57-61 | the inner loop finds the first j from its start that completes the pair, or reports that none exists |
| LeetCode.PairFromSpec | Solutions/src/main/java/LeetCode/p1.java:53-66 | the answer is [] iff no pair exists; otherwise it is [i, j] with i < j, summing to target, and first in scan order |
| LeetCode.FirstPairSpec | Solutions/src/main/java/LeetCode/p1.java:53-66 | the same over the whole array |
| LeetCode.TwoSum | Solutions/src/main/java/LeetCode/p1.java:53-66 | the nested loops return `FirstPair` of the array |
| LeetCode.SampleAnswers | Solutions/src/main/java/LeetCode/p1.java:18-32 | the three sample inputs give [0,1], [1,2], [0,1]; the empty input gives [] |
| LeetCode.RunTest | Solutions/src/main/java/LeetCode/p1.java:12-49 | tests 1 and 3 print [0, 1], test 2 prints [1, 2], all others print [] |
| TheatreSquare.AllTokensAppend | Solutions/src/main/java/Codeforces/p1A.java:33-40 | the token stream of two blocks of lines is the concatenation of their streams |
| TheatreSquare.BlankLineSkipped | Solutions/src/main/java/Codeforces/p1A.java:34-38 | a line without tokens contributes nothing |
| TheatreSquare.NextValueRest | Solutions/src/main/java/Codeforces/p1A.java:33-40 | after one read, the k-th value of the rest is the (k+1)-th value of the whole stream |
| TheatreSquare.FastScanner.constructor | Solutions/src/main/java/Codeforces/p1A.java:29-31 | a new scanner has no current line, and its pending tokens are the tokens of the whole input |
| TheatreSquare.FastScanner.NextLong | Solutions/src/main/java/Codeforces/p1A.java:33-40 | returns the next pending token parsed as `long`, or −1 at end of input, and consumes exactly that token |
| TheatreSquare.TilesIsCeiling | Solutions/src/main/java/Codeforces/p1A.java:21-22 | for positive sizes, (n + a − 1)/a is the fewest flagstones covering n |
| TheatreSquare.OneFlagstone | Solutions/src/main/java/Codeforces/p1A.java:21-23 | a square no larger than one flagstone needs exactly one |
| TheatreSquare.FlagstonesCover | Solutions/src/main/java/Codeforces/p1A.java:21-23 | the flagstone grid covers the square, and no row or column of it is superfluous |
| TheatreSquare.Solve | Solutions/src/main/java/Codeforces/p1A.java:15-26 | the printed value is `Flagstones` of the first three values of the token stream |
| Isosceles.IsoscelesDistinct | Solutions/src/main/java/AtCoder/ABC424A.java:22-23 | two equal sides iff the sides take fewer than three distinct values |
| Isosceles.IsoscelesSymmetric | Solutions/src/main/java/AtCoder/ABC424A.java:23 | the verdict does not depend on the order of the sides |
| Isosceles.Answer | Solutions/src/main/java/AtCoder/ABC424A.java:14-28 | exactly one of "Yes" and "No" is printed, and only when the first line has three tokens |
| Isosceles.OnlyFirstThreeTokens | Solutions/src/main/java/AtCoder/ABC424A.java:16-20 | further tokens and further lines are never read |
| Isosceles.DecideOfSides | Solutions/src/main/java/AtCoder/ABC424A.java:18-27 | three decimal sides get the verdict for those sides |
| Isosceles.AnswerOfSides | Solutions/src/main/java/AtCoder/ABC424A.java:15-27 | a first line of three space-separated sides prints "Yes" iff two of them are equal |
| MultiplesOfThreeOrFive.SumCountedMonotone | Solutions/src/main/java/ProjectEuler/p1.java:13-18 | the running sum never decreases |
| MultiplesOfThreeOrFive.MultipleOfFifteen | Solutions/src/main/java/ProjectEuler/p1.java:15 | a multiple of 15 is exactly a multiple of both 3 and 5 |
| MultiplesOfThreeOrFive.InclusionExclusion | Solutions/src/main/java/ProjectEuler/p1.java:14-18 | the sum equals multiples of 3 plus multiples of 5 minus multiples of 15 |
| MultiplesOfThreeOrFive.MultiplesClosedForm | Solutions/src/main/java/ProjectEuler/p1.java:14-18 | the multiples of k up to kt add up to kt(t+1)/2 |
| MultiplesOfThreeOrFive.MultiplesBelowClosedForm | Solutions/src/main/java/ProjectEuler/p1.java:14-18 | the multiples of k below n add up to kq(q+1)/2 with q = (n−1) div k |
| MultiplesOfThreeOrFive.SumCountedClosedForm | Solutions/src/main/java/ProjectEuler/p1.java:13-18 | closed form of the answer below any n |
| MultiplesOfThreeOrFive.AnswerBelowLimit | Solutions/src/main/java/ProjectEuler/p1.java:12-21 | the answer below 1000 is 233168 |
| MultiplesOfThreeOrFive.SumMultiples | Solutions/src/main/java/ProjectEuler/p1.java:12-21 | the loop computes the sum of the counted numbers in [1, 1000), which is 233168 |
| EvenFibonacci.Window | Solutions/src/main/java/ProjectEuler/p2.java:13-20 | the window holds two increasing positive terms |
| EvenFibonacci.TermRecurrence | Solutions/src/main/java/ProjectEuler/p2.java:18-20 | the terms start 1, 2, and each is the sum of the two before it |
| EvenFibonacci.TermIncreasing | Solutions/src/main/java/ProjectEuler/p2.java:17-20 | the terms grow strictly, so the loop ends |
| EvenFibonacci.TermParity | Solutions/src/main/java/ProjectEuler/p2.java:22-24 | a term is even iff its index is 1 mod 3 |
| EvenFibonacci.EvenSumIsEveryThird | Solutions/src/main/java/ProjectEuler/p2.java:22-24 | the even terms are exactly every third term starting with the second |
| EvenFibonacci.ValuesAtBound | Solutions/src/main/java/ProjectEuler/p2.java:17-25 | Term(31) = 3524578 < 4000000 ≤ Term(32) = 5702887 |
| EvenFibonacci.FirstTermAtBound | Solutions/src/main/java/ProjectEuler/p2.java:17 | the first term not below four million is Term(32) |
| EvenFibonacci.EvenSumAtBound | Solutions/src/main/java/ProjectEuler/p2.java:15-25 | the even terms up to Term(32) add up to 4613732 |
| EvenFibonacci.EvenFibonacciSum | Solutions/src/main/java/ProjectEuler/p2.java:12-28 | the rolling-window loop sums the even terms up to the first term reaching four million: 4613732 |
| ThreeNPlusOne.LengthFuel | Solutions/src/main/java/UVa/p100.java:43-55 | the cycle length does not depend on the step budget used to reach 1 |
| ThreeNPlusOne.CycleStep | Solutions/src/main/java/UVa/p100.java:44-52 | the cycle length of 1 is 1; any other value adds one to its successor's |
| ThreeNPlusOne.CycleOfTwentyTwo | Solutions/src/main/java/UVa/p100.java:43-55 | 22 has cycle length 16 |
| ThreeNPlusOne.CycleLength | Solutions/src/main/java/UVa/p100.java:43-55 | the loop counts the values from n down to 1, both included |
| ThreeNPlusOne.MaxCycleIsMax | Solutions/src/main/java/UVa/p100.java:29-33 | no number in the range exceeds the maximum, and some number attains it |
| ThreeNPlusOne.MaxCycleLength | Solutions/src/main/java/UVa/p100.java:29-33 | the for loop computes the maximum cycle length over [start, end], or 0 for an empty range |
| ThreeNPlusOne.RangeSymmetric | Solutions/src/main/java/UVa/p100.java:26-33 | swapping i and j gives the same range and the same maximum cycle length |
| ThreeNPlusOne.TerminatesUpToMalformed | Solutions/src/main/java/UVa/p100.java:22-24 | the termination assumption says nothing about the lines after a malformed one |
| ThreeNPlusOne.MalformedFirstLine | Solutions/src/main/java/UVa/p100.java:22-24 | an input starting with the line `x` needs no assumption on the rest and prints nothing |
| ThreeNPlusOne.ReportsStep | Solutions/src/main/java/UVa/p100.java:19-37 | a line adds nothing (blank), one report (pair), or fails the run (malformed); only a line that is not malformed passes the termination assumption on |
| ThreeNPlusOne.ReportsFail | Solutions/src/main/java/UVa/p100.java:19-39 | nothing is printed iff some line is malformed |
| ThreeNPlusOne.MalformedFails | Solutions/src/main/java/UVa/p100.java:22-24 | a malformed line anywhere means nothing is printed |
| ThreeNPlusOne.FailHasMalformed | Solutions/src/main/java/UVa/p100.java:19-39 | a run that prints nothing has a malformed line |
| ThreeNPlusOne.ReadPair | Solutions/src/main/java/UVa/p100.java:20-24 | round trip: a line holding two non-negative `int`s in decimal, separated by a space, reads as that pair |
| ThreeNPlusOne.ReportsCount | Solutions/src/main/java/UVa/p100.java:19-37 | one report per non-blank line, in input order, the m-th echoing the i and j of the m-th pair line |
| ThreeNPlusOne.Run | Solutions/src/main/java/UVa/p100.java:14-40 | the buffered output is `Reports` of the input lines; termination is assumed only for pair lines before the first malformed one |
| LifeUniverseEverything.EchoNever42 | Solutions/src/main/java/SPOJ/p1.java:20-22 | no printed number is 42, and every printed number is an `int` |
| LifeUniverseEverything.EchoIgnoresAfterStop | Solutions/src/main/java/SPOJ/p1.java:20-21 | nothing after the first 42 or the first non-number is read |
| LifeUniverseEverything.EchoPrefix | Solutions/src/main/java/SPOJ/p1.java:17-23 | output is never taken back: a prefix's output starts the whole input's output, and a failure stays a failure |
| LifeUniverseEverything.EchoWithoutStop | Solutions/src/main/java/SPOJ/p1.java:17-23 | without 42 or a malformed line, every number is echoed in order and the run ends normally |
| LifeUniverseEverything.EchoUntilStop | Solutions/src/main/java/SPOJ/p1.java:17-23 | at the first 42 or non-number, every earlier number has been echoed in order; the run fails iff that line is not a number; later lines do not matter |
| LifeUniverseEverything.ReadDecimal | Solutions/src/main/java/SPOJ/p1.java:18-20 | a line holding a non-negative `int` in decimal reads as that number |
| LifeUniverseEverything.EchoStep | Solutions/src/main/java/SPOJ/p1.java:18-22 | one line: skip if blank, fail on a non-number, stop at 42, otherwise print and go on |
| LifeUniverseEverything.Run | Solutions/src/main/java/SPOJ/p1.java:14-24 | the loop prints `Echo` of the input and records the exception |
| JavaText.TruncDiv | Solutions/src/main/java/Statistics.java:43 | division rounds toward zero, with the quotient bracketed accordingly |
| JavaText.TruncMod | Solutions/src/main/java/Statistics.java:83 | the remainder completes the truncated quotient and carries the dividend's sign |
| JavaText.IndexOf | Solutions/src/main/java/Main.java:50 | the first occurrence, or −1 iff absent |
| JavaText.IndexOfAppend | Solutions/src/main/java/Main.java:50-53 | the first occurrence in a concatenation |
| JavaText.Trim | Solutions/src/main/java/UVa/p100.java:20 | the trimmed line is empty iff every character is ≤ space; otherwise it is the middle part, without trimmable ends |
| JavaText.Tokens | Solutions/src/main/java/Codeforces/p1A.java:37 | every token is non-empty and free of delimiters |
| JavaText.TokensOfJoin | Solutions/src/main/java/AtCoder/ABC424A.java:16-20 | tokenizing words joined by spaces returns the words |
| JavaText.Split | Solutions/src/main/java/AdventOfCode/y2015_d02p1.java:18 | a string without the separator splits into itself |
| JavaText.SplitJoin3 | Solutions/src/main/java/AdventOfCode/y2015_d02p1.java:18 | three fields joined by the separator split back into those fields |
| JavaText.ParseInt | Solutions/src/main/java/Main.java:53 | a successful parse lies in the `int` range |
| JavaText.ParseLong | Solutions/src/main/java/Codeforces/p1A.java:39 | a successful parse lies in the `long` range |
| JavaText.ParseDecimal | Solutions/src/main/java/AtCoder/ABC424A.java:18-20 | parsing the decimal digits of an in-range number gives the number back |
| JavaText.ParseOneChar | Solutions/src/main/java/Main.java:53 | a single character parses iff it is a digit, and then to its value |

## Left out

- Platform handlers, `BenchmarkReporter`, `UnitConverter` and Project Euler 3 are not part of this model. Running, timing, printing the statistics table and writing the CSV file are I/O, so `Launch` stops at the outcome that says what would run.
- Printed text and its formatting are not modelled. Outputs are the values printed, or a trace of them.
- Integer width is not modelled. Java `int` and `long` overflow has no counterpart here. This covers the day 2 side areas and total, the day 3 coordinates, the Two Sum sum, `3 * value + 1` in UVa 100, `n++` at `Integer.MAX_VALUE` in the UVa 100 for loop, and the Codeforces product. In `Statistics.java` it covers the `long` sum of two neighbouring samples in the quartile averages (lines 54, 60 and 66), `data[i] - mean` (line 73), and `Integer.parseInt` of the hour count (line 82), which throws once the total reaches 2^31 hours.
- Stats.SummaryDefined: "succeeds iff at least three samples" holds only with unbounded integers, because the hour-count exception of line 82 is not modelled.
- `Integer.parseInt` and `Long.parseLong` accept only ASCII digits here. Java also accepts other Unicode decimal digits.
- Statistics doubles: the quartile positions and the 80% / 20% factors are exact rationals. The Java doubles hold the quartile positions exactly. For the trimming factors, the model assumes that `n * 0.8` and `n * 0.2` round to the exact products closely enough that `ceil` and `floor` are unchanged.
- Stats.SortedCopy: `Arrays.stream(...).sorted()` is specified by its result (sorted and a permutation), not by Java's sorting algorithm.
- WrappingPaper.SortThree: `Arrays.sort` on the three-element array is modelled by three compare-and-swap steps. The contract states the same result: ascending, and a rearrangement of the old contents.
- Deliveries.ProcessDelivery: the house list is returned rather than mutated through the caller's shared `List` reference. The `House` objects and their arrays are mutated in place.
- Java strings are sequences of UTF-16 code units; here a string is a sequence of Unicode characters. Positions and lengths differ only for characters outside the Basic Multilingual Plane, where Java sees two units and the model one. The members affected are listed below.
- Floors.FinalFloor: a character outside the Basic Multilingual Plane moves down two floors in Java (one per code unit) and one here; Floors.Floor counts the same way.
- Floors.BasementStep: step numbers count characters here, code units in Java, so they differ after a character outside the Basic Multilingual Plane.
- Deliveries.CountHouses: such a character is not a move, so the count is the same, but Java prints one trace line per code unit (two for it) where the model records one.
- Launcher.ParseHeader: `indexOf` and `substring` positions count code units in Java; Launcher.Validate and Launcher.ParseIterations likewise.
- LeetCode.TwoSum: the returned `int[]` is a sequence.
- ThreeNPlusOne.Run: termination of the Collatz iteration is a precondition on the pair lines before the first malformed line, the lines that p100.java reads. Whether `cycleLength` terminates for every positive number is an open problem, and it loops forever for 0 and negative numbers.
- ThreeNPlusOne.CycleLength: termination is assumed through the ghost step budget `fuel`.
