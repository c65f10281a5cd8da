/**
 * UVa problem 100 ("The 3n + 1 problem"): for every input line holding two
 * integers i and j, print i, j and the largest cycle length of any number
 * between them.  The cycle length of n counts n and every value the 3n + 1
 * rule produces until it reaches 1.
 *
 * Whether that rule reaches 1 from every positive number is the open
 * Collatz conjecture; `cycleLength` loops forever when it does not (0 and
 * the negative numbers among them).  The model therefore carries a ghost
 * step budget `fuel` wherever the source relies on termination.
 */
module ThreeNPlusOne {
  import opened Wrappers
  import opened JavaText

  /** One step of the rule: odd values go to 3v + 1, even values are halved (exactly). */
  function Next(v: int): int
  {
    if v % 2 == 1 then 3 * v + 1 else v / 2
  }

  /** Starting from `v`, the value 1 is reached within `fuel` steps. */
  predicate ReachesOne(v: int, fuel: nat)
    decreases fuel
  {
    v == 1 || (fuel > 0 && ReachesOne(Next(v), fuel - 1))
  }

  /** Some number of steps takes `v` to 1, so `cycleLength(v)` returns. */
  ghost predicate Terminates(v: int)
  {
    exists fuel: nat :: ReachesOne(v, fuel)
  }

  /** The number of values on the way from `v` to 1, both ends included. */
  function Length(v: int, fuel: nat): (c: nat)
    requires ReachesOne(v, fuel)
    ensures c >= 1
    decreases fuel
  {
    if v == 1 then 1 else 1 + Length(Next(v), fuel - 1)
  }

  /** The count does not depend on the budget used to compute it. */
  lemma {:induction false} LengthFuel(v: int, f: nat, g: nat)
    requires ReachesOne(v, f) && ReachesOne(v, g)
    ensures Length(v, f) == Length(v, g)
    decreases f
  {
    if v != 1 {
      LengthFuel(Next(v), f - 1, g - 1);
    }
  }

  /** The cycle length of a number the rule takes to 1. */
  ghost function Cycle(v: int): (c: nat)
    requires Terminates(v)
    ensures c >= 1
    ensures forall fuel: nat :: ReachesOne(v, fuel) ==> c == Length(v, fuel)
  {
    var fuel: nat :| ReachesOne(v, fuel);
    LengthFuel2(v, fuel);
    Length(v, fuel)
  }

  lemma LengthFuel2(v: int, f: nat)
    requires ReachesOne(v, f)
    ensures forall g: nat :: ReachesOne(v, g) ==> Length(v, g) == Length(v, f)
  {
    forall g: nat | ReachesOne(v, g)
      ensures Length(v, g) == Length(v, f)
    {
      LengthFuel(v, g, f);
    }
  }

  /** `cycleLength(1)` is 1, and every other value adds one to the length of its successor. */
  lemma CycleStep(v: int)
    requires Terminates(v)
    ensures v == 1 ==> Cycle(v) == 1
    ensures v != 1 ==> Terminates(Next(v)) && Cycle(v) == 1 + Cycle(Next(v))
  {
    var fuel: nat :| ReachesOne(v, fuel);
    if v != 1 {
      assert ReachesOne(Next(v), fuel - 1);
    }
  }

  /** The example of the problem statement: 22 11 34 17 52 26 13 40 20 10 5 16 8 4 2 1. */
  lemma CycleOfTwentyTwo()
    ensures Terminates(22) && Cycle(22) == 16
  {
    assert ReachesOne(2, 1) && Length(2, 1) == 2;
    assert ReachesOne(4, 2) && Length(4, 2) == 3;
    assert ReachesOne(8, 3) && Length(8, 3) == 4;
    assert ReachesOne(16, 4) && Length(16, 4) == 5;
    assert ReachesOne(5, 5) && Length(5, 5) == 6;
    assert ReachesOne(10, 6) && Length(10, 6) == 7;
    assert ReachesOne(20, 7) && Length(20, 7) == 8;
    assert ReachesOne(40, 8) && Length(40, 8) == 9;
    assert ReachesOne(13, 9) && Length(13, 9) == 10;
    assert ReachesOne(26, 10) && Length(26, 10) == 11;
    assert ReachesOne(52, 11) && Length(52, 11) == 12;
    assert ReachesOne(17, 12) && Length(17, 12) == 13;
    assert ReachesOne(34, 13) && Length(34, 13) == 14;
    assert ReachesOne(11, 14) && Length(11, 14) == 15;
    assert ReachesOne(22, 15) && Length(22, 15) == 16;
  }

  /** p100.cycleLength: count the values until 1 is reached. */
  method CycleLength(n: int, ghost fuel: nat) returns (count: int)
    requires ReachesOne(n, fuel)
    ensures count == Length(n, fuel)
  {
    count := 1;
    var value := n;
    ghost var f := fuel;
    while value != 1
      invariant ReachesOne(value, f)
      invariant count + Length(value, f) == Length(n, fuel) + 1
      decreases f
    {
      if value % 2 == 1 {
        value := 3 * value + 1;
      } else {
        value := value / 2;
      }
      f := f - 1;
      count := count + 1;
    }
  }

  /** Every number between `lo` and `hi` reaches 1. */
  ghost predicate RangeTerminates(lo: int, hi: int)
  {
    forall n :: lo <= n <= hi ==> Terminates(n)
  }

  /** The largest cycle length over [lo, hi], or 0 for an empty range. */
  ghost function MaxCycle(lo: int, hi: int): (m: nat)
    requires RangeTerminates(lo, hi)
    decreases hi - lo
  {
    if hi < lo then 0 else
      var m := MaxCycle(lo, hi - 1);
      if Cycle(hi) > m then Cycle(hi) else m
  }

  /** MaxCycle is the maximum: no number of the range exceeds it, and some number attains it. */
  lemma {:induction false} MaxCycleIsMax(lo: int, hi: int)
    requires RangeTerminates(lo, hi)
    ensures forall n :: lo <= n <= hi ==> Cycle(n) <= MaxCycle(lo, hi)
    ensures lo <= hi ==> exists n :: lo <= n <= hi && Cycle(n) == MaxCycle(lo, hi)
    decreases hi - lo
  {
    if lo <= hi {
      MaxCycleIsMax(lo, hi - 1);
      if lo == hi {
        assert Cycle(hi) == MaxCycle(lo, hi);
      }
    }
  }

  /** The range is [min(i, j), max(i, j)]: giving the bounds in either order gives the same answer. */
  lemma RangeSymmetric(i: int, j: int)
    requires RangeTerminates(Min(i, j), Max(i, j))
    ensures RangeTerminates(Min(j, i), Max(j, i))
    ensures MaxCycle(Min(i, j), Max(i, j)) == MaxCycle(Min(j, i), Max(j, i))
  {
  }

  function Min(a: int, b: int): int { if a <= b then a else b }

  function Max(a: int, b: int): int { if a <= b then b else a }

  /** The for loop in p100.main: the largest cycle length over [start, end]. */
  method MaxCycleLength(start: int, end: int) returns (maxCycle: int)
    requires RangeTerminates(start, end)
    ensures maxCycle == MaxCycle(start, end)
  {
    maxCycle := 0;
    var n := start;
    while n <= end
      invariant start <= n && (start <= end ==> n <= end + 1) && (start > end ==> n == start)
      invariant RangeTerminates(start, n - 1)
      invariant maxCycle == MaxCycle(start, n - 1)
      decreases end - n
    {
      assert Terminates(n);
      ghost var fuel: nat :| ReachesOne(n, fuel);
      var cl := CycleLength(n, fuel);
      if cl > maxCycle {
        maxCycle := cl;
      }
      n := n + 1;
    }
  }

  /** What one input line contributes: nothing (blank), a pair, or an exception. */
  datatype Line = Blank | Pair(i: int, j: int) | Malformed

  /** Trim the line, skip it when empty, otherwise parse the first two tokens as `int`s. */
  function ReadLine(line: string): Line
  {
    var t := Trim(line);
    if t == [] then Blank
    else
      var st := Tokens(t);
      if |st| < 2 then Malformed
      else
        var i, j := ParseInt(st[0]), ParseInt(st[1]);
        if i.Some? && j.Some? then Pair(i.value, j.value) else Malformed
  }

  /** A line holding two non-negative `int`s in decimal, separated by a space, reads as that pair. */
  lemma ReadPair(i: nat, j: nat)
    requires i <= INT_MAX && j <= INT_MAX
    ensures ReadLine(JoinSpaced([Decimal(i), Decimal(j)])) == Pair(i, j)
  {
    var a, b := Decimal(i), Decimal(j);
    var line := JoinSpaced([a, b]);
    assert line == a + " " + b;
    assert line[0] == a[0] && line[|line| - 1] == b[|b| - 1];
    assert Trim(line) == line by {
      assert !IsTrimmed(line[0]) && !IsTrimmed(line[|line| - 1]);
      assert line[0..|line|] == line;
    }
    assert forall k :: 0 <= k < |[a, b]| ==> [a, b][k] != [] && NoDelimiter([a, b][k]);
    TokensOfJoin([a, b]);
    ParseDecimal(i, INT_MIN, INT_MAX);
    ParseDecimal(j, INT_MIN, INT_MAX);
  }

  /** One output line: i and j as given, then the largest cycle length between them. */
  datatype Report = Report(i: int, j: int, maxCycle: int)

  /** Every line of the input, read as p100.main reads it. */
  function ReadLines(lines: seq<string>): (ls: seq<Line>)
    ensures |ls| == |lines| && forall k :: 0 <= k < |lines| ==> ls[k] == ReadLine(lines[k])
  {
    seq(|lines|, k requires 0 <= k < |lines| => ReadLine(lines[k]))
  }

  /** The rule terminates for every number the line asks about (if it asks about any). */
  ghost predicate LineTerminates(l: Line)
  {
    l.Pair? ==> RangeTerminates(Min(l.i, l.j), Max(l.i, l.j))
  }

  /**
   * The rule terminates for every number that a line before the first
   * malformed one asks about.  The exception on a malformed line ends
   * p100.main, so the lines after it are never read.
   */
  ghost predicate AllTerminate(ls: seq<Line>)
  {
    ls == [] || ls[0].Malformed? || (LineTerminates(ls[0]) && AllTerminate(ls[1..]))
  }

  /** The assumption Run needs of its text input. */
  ghost predicate InputTerminates(lines: seq<string>)
  {
    AllTerminate(ReadLines(lines))
  }

  /** The report printed for a line holding a pair. */
  ghost function LineReport(l: Line): Report
    requires LineTerminates(l) && l.Pair?
  {
    Report(l.i, l.j, MaxCycle(Min(l.i, l.j), Max(l.i, l.j)))
  }

  /** Reports already in the buffer, followed by those of the rest of the run (if it does not fail). */
  function After(done: seq<Report>, rest: Option<seq<Report>>): Option<seq<Report>>
  {
    if rest.None? then None else Some(done + rest.value)
  }

  /** Buffering reports in two steps is buffering them in one. */
  lemma AfterAfter(done: seq<Report>, more: seq<Report>, rest: Option<seq<Report>>)
    ensures After(done, After(more, rest)) == After(done + more, rest)
    ensures After([], rest) == rest && After(done, Some([])) == Some(done)
  {
    if rest.Some? {
      assert done + (more + rest.value) == done + more + rest.value;
      assert [] + rest.value == rest.value;
    }
    assert done + [] == done;
  }

  /**
   * The reports of a run over the parsed lines, one per non-blank line;
   * `None` when a line is malformed: the exception ends the program before
   * the buffered output is printed.
   */
  ghost function ReportsOf(ls: seq<Line>): Option<seq<Report>>
    requires AllTerminate(ls)
  {
    if ls == [] then Some([])
    else if ls[0].Malformed? then None
    else if ls[0].Blank? then ReportsOf(ls[1..])
    else After([LineReport(ls[0])], ReportsOf(ls[1..]))
  }

  /** The text p100.main prints for its input. */
  ghost function Reports(lines: seq<string>): Option<seq<Report>>
    requires InputTerminates(lines)
  {
    ReportsOf(ReadLines(lines))
  }

  /** Whatever follows the first malformed line carries no assumption. */
  lemma {:induction false} TerminatesUpToMalformed(before: seq<Line>, after: seq<Line>)
    ensures AllTerminate(before + [Malformed] + after) == AllTerminate(before + [Malformed])
  {
    if before != [] {
      assert (before + [Malformed] + after)[0] == before[0] && (before + [Malformed])[0] == before[0];
      assert (before + [Malformed] + after)[1..] == before[1..] + [Malformed] + after;
      assert (before + [Malformed])[1..] == before[1..] + [Malformed];
      TerminatesUpToMalformed(before[1..], after);
    }
  }

  /** A run whose first line is malformed needs no assumption and prints nothing. */
  lemma MalformedFirstLine(after: seq<string>)
    ensures InputTerminates(["x"] + after) && Reports(["x"] + after) == None
  {
    assert Trim("x") == "x";
    assert Tokens("x") == ["x"];
    assert ReadLines(["x"] + after)[0] == Malformed;
  }

  /** The number of non-blank lines. */
  function Filled(ls: seq<Line>): nat
  {
    if ls == [] then 0 else (if ls[0].Blank? then 0 else 1) + Filled(ls[1..])
  }

  /** The `i` and `j` of the lines holding a pair, in input order. */
  function Pairs(ls: seq<Line>): seq<(int, int)>
  {
    if ls == [] then [] else (if ls[0].Pair? then [(ls[0].i, ls[0].j)] else []) + Pairs(ls[1..])
  }

  /** A malformed line makes the whole run print nothing. */
  lemma {:induction false} MalformedFails(ls: seq<Line>, k: nat)
    requires k < |ls| && AllTerminate(ls) && ls[k].Malformed?
    ensures ReportsOf(ls).None?
  {
    if !ls[0].Malformed? {
      assert ls[1..][k - 1] == ls[k];
      MalformedFails(ls[1..], k - 1);
    }
  }

  /** A run that prints nothing has a malformed line. */
  lemma {:induction false} FailHasMalformed(ls: seq<Line>)
    requires AllTerminate(ls) && ReportsOf(ls).None?
    ensures exists k :: 0 <= k < |ls| && ls[k].Malformed?
  {
    if !ls[0].Malformed? {
      FailHasMalformed(ls[1..]);
      var k :| 0 <= k < |ls[1..]| && ls[1..][k].Malformed?;
      assert ls[k + 1] == ls[1..][k];
    }
  }

  /** The input is rejected exactly when some line is malformed. */
  lemma ReportsFail(ls: seq<Line>)
    requires AllTerminate(ls)
    ensures ReportsOf(ls).None? <==> exists k :: 0 <= k < |ls| && ls[k].Malformed?
  {
    if ReportsOf(ls).None? {
      FailHasMalformed(ls);
    }
    if exists k :: 0 <= k < |ls| && ls[k].Malformed? {
      var k :| 0 <= k < |ls| && ls[k].Malformed?;
      MalformedFails(ls, k);
    }
  }

  /** One report per non-blank line, in input order, each echoing that line's i and j. */
  lemma {:induction false} ReportsCount(ls: seq<Line>)
    requires AllTerminate(ls) && ReportsOf(ls).Some?
    ensures |ReportsOf(ls).value| == Filled(ls) == |Pairs(ls)|
    ensures forall m :: 0 <= m < |Pairs(ls)| ==>
      ReportsOf(ls).value[m].i == Pairs(ls)[m].0 && ReportsOf(ls).value[m].j == Pairs(ls)[m].1
  {
    if ls != [] {
      ReportsCount(ls[1..]);
    }
  }

  /** What line `k` does to the output of the lines from `k` on. */
  lemma ReportsStep(ls: seq<Line>, k: nat)
    requires k < |ls| && AllTerminate(ls[k..])
    ensures !ls[k].Malformed? ==> LineTerminates(ls[k]) && AllTerminate(ls[k + 1..])
    ensures ReportsOf(ls[k..]) ==
      if ls[k].Malformed? then None
      else if ls[k].Blank? then ReportsOf(ls[k + 1..])
      else After([LineReport(ls[k])], ReportsOf(ls[k + 1..]))
  {
    assert ls[k..][0] == ls[k];
    assert ls[k..][1..] == ls[k + 1..];
  }

  /**
   * Lines 20-24 of p100.main: trim the line, report a blank one, and
   * otherwise parse its first two tokens as `int`s.
   */
  method ParseLine(raw: string) returns (parsed: Line)
    ensures parsed == ReadLine(raw)
  {
    var line := Trim(raw);
    if line == [] {
      return Blank;
    }
    var st := Tokens(line);
    if |st| < 2 {
      return Malformed;
    }
    var i := ParseInt(st[0]);
    var j := ParseInt(st[1]);
    if i.None? || j.None? {
      return Malformed;
    }
    parsed := Pair(i.value, j.value);
  }

  /** p100.main: process every line, collecting the reports in a buffer printed at the end. */
  method Run(input: seq<string>) returns (out: Option<seq<Report>>)
    requires InputTerminates(input)
    ensures out == Reports(input)
  {
    ghost var ls := ReadLines(input);
    var buffer: seq<Report> := [];
    var k := 0;
    assert ls[0..] == ls;
    AfterAfter(buffer, [], ReportsOf(ls));
    while k < |input|
      invariant 0 <= k <= |input|
      invariant AllTerminate(ls[k..])
      invariant Reports(input) == After(buffer, ReportsOf(ls[k..]))
    {
      ReportsStep(ls, k);
      var parsed := ParseLine(input[k]);
      match parsed {
        case Blank =>
        case Malformed =>
          return None;
        case Pair(i, j) =>
          var start := if i <= j then i else j;
          var end := if i <= j then j else i;
          var maxCycle := MaxCycleLength(start, end);
          ghost var rest := ReportsOf(ls[k + 1..]);
          AfterAfter(buffer, [Report(i, j, maxCycle)], rest);
          buffer := buffer + [Report(i, j, maxCycle)];
      }
      k := k + 1;
    }
    assert ls[k..] == [];
    AfterAfter(buffer, [], Some([]));
    out := Some(buffer);
  }
}
