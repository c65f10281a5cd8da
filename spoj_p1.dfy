/**
 * SPOJ problem 1 ("Life, the Universe, and Everything"): echo the numbers
 * of the input, one per line, and stop at the first 42 without printing it.
 *
 * Standard input is the sequence of its lines.  Blank lines (after
 * trimming) are skipped.  A non-blank line that is not an `int` makes Java
 * throw; the numbers already printed stay printed, so an outcome is the
 * printed numbers together with whether the run ended with that exception.
 */
module LifeUniverseEverything {
  import opened Wrappers
  import opened JavaText

  /** The number that ends the input. */
  const ANSWER: int := 42

  /** What one input line is, once trimmed. */
  datatype Line = Blank | Number(n: int) | NotNumber

  function ReadLine(line: string): Line
  {
    var t := Trim(line);
    if t == [] then Blank
    else
      var n := ParseInt(t);
      if n.Some? then Number(n.value) else NotNumber
  }

  /** A line after which nothing more is read: the stop marker, or an exception. */
  predicate Stops(line: string)
  {
    var r := ReadLine(line);
    r.NotNumber? || (r.Number? && r.n == ANSWER)
  }

  /** The printed numbers, and whether the run ended with `NumberFormatException`. */
  datatype Outcome = Outcome(printed: seq<int>, failed: bool)

  /** Numbers printed before the rest of the run. */
  function After(printed: seq<int>, o: Outcome): Outcome
  {
    Outcome(printed + o.printed, o.failed)
  }

  /** What p1.main does with the remaining lines. */
  function Echo(lines: seq<string>): Outcome
  {
    if lines == [] then Outcome([], false)
    else
      match ReadLine(lines[0])
      case Blank => Echo(lines[1..])
      case NotNumber => Outcome([], true)
      case Number(n) => if n == ANSWER then Outcome([], false) else After([n], Echo(lines[1..]))
  }

  /** Every printed value is an `int` other than 42. */
  lemma {:induction false} EchoNever42(lines: seq<string>)
    ensures forall i :: 0 <= i < |Echo(lines).printed| ==>
      Echo(lines).printed[i] != ANSWER && INT_MIN <= Echo(lines).printed[i] <= INT_MAX
  {
    if lines != [] {
      EchoNever42(lines[1..]);
    }
  }

  /** Nothing after the first stopping line is read. */
  lemma {:induction false} EchoIgnoresAfterStop(before: seq<string>, line: string, after: seq<string>)
    requires Stops(line)
    ensures Echo(before + [line] + after) == Echo(before + [line])
  {
    if before == [] {
      assert ([line] + after)[0] == line && [line][0] == line;
    } else {
      assert (before + [line] + after)[0] == before[0];
      assert (before + [line])[0] == before[0];
      assert (before + [line] + after)[1..] == before[1..] + [line] + after;
      assert (before + [line])[1..] == before[1..] + [line];
      EchoIgnoresAfterStop(before[1..], line, after);
    }
  }

  /** Output is never taken back: what a prefix of the input prints, the whole input prints first. */
  lemma {:induction false} EchoPrefix(a: seq<string>, b: seq<string>)
    ensures Echo(a).printed <= Echo(a + b).printed
    ensures Echo(a).failed ==> Echo(a + b) == Echo(a)
  {
    if a != [] {
      assert (a + b)[0] == a[0];
      assert (a + b)[1..] == a[1..] + b;
      EchoPrefix(a[1..], b);
    }
  }

  /** The numbers of the non-blank lines, in order (an independent reference for a run that never stops). */
  function Numbers(lines: seq<string>): seq<int>
  {
    if lines == [] then []
    else (if ReadLine(lines[0]).Number? then [ReadLine(lines[0]).n] else []) + Numbers(lines[1..])
  }

  /** Without a stopping line, every number is echoed, in input order, and the run ends normally. */
  lemma {:induction false} EchoWithoutStop(lines: seq<string>)
    requires forall k :: 0 <= k < |lines| ==> !Stops(lines[k])
    ensures Echo(lines) == Outcome(Numbers(lines), false)
  {
    if lines != [] {
      assert !Stops(lines[0]);
      assert forall k :: 0 <= k < |lines[1..]| ==> lines[1..][k] == lines[k + 1];
      EchoWithoutStop(lines[1..]);
    }
  }

  /**
   * At the first stopping line, every number before it has been echoed in input order; the
   * run fails exactly when that line is not a number (it fails not at a 42), and nothing
   * after it matters.
   */
  lemma {:induction false} EchoUntilStop(before: seq<string>, line: string, after: seq<string>)
    requires forall k :: 0 <= k < |before| ==> !Stops(before[k])
    requires Stops(line)
    ensures Echo(before + [line] + after) == Outcome(Numbers(before), ReadLine(line).NotNumber?)
  {
    if before == [] {
      assert ([line] + after)[0] == line;
    } else {
      assert !Stops(before[0]);
      assert (before + [line] + after)[0] == before[0];
      assert (before + [line] + after)[1..] == before[1..] + [line] + after;
      assert forall k :: 0 <= k < |before[1..]| ==> before[1..][k] == before[k + 1];
      EchoUntilStop(before[1..], line, after);
    }
  }

  /** A run of digits is unchanged by `trim`. */
  lemma TrimDigits(s: string)
    requires s != [] && AllDigits(s)
    ensures Trim(s) == s
  {
    assert IsDigit(s[0]) && IsDigit(s[|s| - 1]);
    assert s[0..|s|] == s;
  }

  /** A line holding a non-negative `int` in decimal reads as that number. */
  lemma ReadDecimal(n: nat)
    requires n <= INT_MAX
    ensures ReadLine(Decimal(n)) == Number(n)
  {
    TrimDigits(Decimal(n));
    ParseDecimal(n, INT_MIN, INT_MAX);
  }

  /** Reading line `k` of the remaining input. */
  lemma EchoStep(input: seq<string>, k: nat)
    requires k < |input|
    ensures Echo(input[k..]) ==
      match ReadLine(input[k])
      case Blank => Echo(input[k + 1..])
      case NotNumber => Outcome([], true)
      case Number(n) => if n == ANSWER then Outcome([], false) else After([n], Echo(input[k + 1..]))
  {
    assert input[k..][0] == input[k];
    assert input[k..][1..] == input[k + 1..];
  }

  /**
   * p1.main: read lines until the input ends; skip blank lines, stop at 42,
   * print every other number.  `failed` records the exception that a
   * non-numeric line raises.
   */
  method Run(input: seq<string>) returns (out: seq<int>, failed: bool)
    ensures Outcome(out, failed) == Echo(input)
  {
    out := [];
    failed := false;
    var k := 0;
    while k < |input|
      invariant 0 <= k <= |input|
      invariant Echo(input) == After(out, Echo(input[k..]))
    {
      EchoStep(input, k);
      var line := Trim(input[k]);
      if line == [] {
        k := k + 1;
        continue;
      }
      var n := ParseInt(line);
      if n.None? {
        failed := true;
        return;
      }
      if n.value == ANSWER {
        break;
      }
      out := out + [n.value];
      k := k + 1;
    }
  }
}
