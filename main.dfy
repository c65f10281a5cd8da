/**
 * The launcher (`Main.java`): it reads one argument of the form
 * `{Platform}.{Name}-{Test}[B{N}][S]`, strips a trailing save flag, extracts the platform,
 * solution name, test digit, benchmark flag and iteration count, validates them in the order
 * the source does, and for a benchmark keeps the last 80% of the measured runtimes for a
 * second set of statistics.
 *
 * Every exception the parsing code can raise is an `Outcome`; which handler catches it
 * decides which one. Running a solution (the platform handlers) is not part of this model:
 * the outcomes `RunOnce` and `Benchmark` say what would be run.
 */
module Launcher {
  import opened Wrappers
  import opened JavaText
  import opened Stats

  /** `SolutionSpecifier`: the solution's class name and the test number. */
  datatype SolutionSpecifier = SolutionSpecifier(name: string, test: int)

  datatype Outcome =
    | Crash                 // no argument, or an empty one: `charAt` throws before any handler
    | ArgumentError         // lines 57-60: a missing `.` or `-`, or a test character that is no digit
    | InvalidTest           // lines 67-69: a test number outside [0, 9]
    | InvalidPlatform       // lines 71-74: a platform that is not one of the seven keys
    | RunFailure            // lines 131-133: the name or the iteration count cannot be extracted
    | TooFewIterations      // lines 92-94: an iteration count of 2 or less
    | RunOnce(platform: string, solution: SolutionSpecifier)
    | Benchmark(platform: string, solution: SolutionSpecifier, iterations: int, save: bool)
  {
    /** The argument was accepted and a solution would be run. */
    predicate Launched() { RunOnce? || Benchmark? }
  }

  /** The keys of the handler map (lines 35-43). */
  const Platforms: set<string> := {"AdventOfCode", "LeetCode", "ProjectEuler", "Codeforces", "AtCoder", "SPOJ", "UVa"}

  /** `s.substring(begin, end)`, which throws unless `0 <= begin <= end <= |s|`. */
  function Substring(s: string, begin: int, end: int): (r: Option<string>)
    ensures r.Some? <==> 0 <= begin <= end <= |s|
    ensures r.Some? ==> |r.value| == end - begin && forall i :: 0 <= i < |r.value| ==> r.value[i] == s[begin + i]
  {
    if 0 <= begin <= end <= |s| then Some(s[begin..end]) else None
  }

  // ---------------------------------------------------------------------------
  // The trailing save flag (lines 28-33)

  predicate HasSaveFlag(arg: string)
    requires arg != []
  {
    arg[|arg| - 1] == 'S'
  }

  /** `args[0]` after line 30: the trailing `S`, if any, chopped off. */
  function StripSave(arg: string): (a: string)
    requires arg != []
    ensures HasSaveFlag(arg) ==> arg == a + ['S']
    ensures !HasSaveFlag(arg) ==> a == arg
  {
    if HasSaveFlag(arg) then arg[..|arg| - 1] else arg
  }

  // ---------------------------------------------------------------------------
  // Parsing and validation (lines 45-94)

  /** What the first `try` block (lines 48-56) extracts. */
  datatype Header = Header(platform: string, test: int, benchmarking: bool)

  /**
   * Lines 50-56: the platform is the text before the first `.`, the test number the one
   * character after the first `-` (the first character when there is no `-`), and
   * benchmarking is on when a `B` follows that character's position.  `None` stands for the
   * exception (a `substring` out of bounds or a `NumberFormatException`) that lines 57-60
   * report: no `.`, no character after the `-`, or one that is no digit.
   */
  function ParseHeader(a: string): (h: Option<Header>)
    ensures h.Some? <==> 0 <= IndexOf(a, '.') && IndexOf(a, '-') + 1 < |a| && IsDigit(a[IndexOf(a, '-') + 1])
    ensures h.Some? ==>
      var t := IndexOf(a, '-') + 1;
      && h.value.platform == a[..IndexOf(a, '.')]
      && h.value.test == (a[t] - '0') as int
      && (h.value.benchmarking <==> 'B' in a[t..])
  {
    var dot := IndexOf(a, '.');
    var dash := IndexOf(a, '-');
    var platform := Substring(a, 0, dot);
    var testText := Substring(a, dash + 1, dash + 2);
    if platform.None? || testText.None? then None
    else
      assert testText.value == [a[dash + 1]];
      ParseOneChar(a[dash + 1]);
      match ParseInt(testText.value)
      case None => None
      case Some(test) => Some(Header(platform.value, test, 'B' in a[dash + 1..]))
  }

  /** Line 91: the iteration count, parsed from three characters past the `-` to the end. */
  function ParseIterations(a: string): Option<int>
  {
    match Substring(a, IndexOf(a, '-') + 3, |a|)
    case None => None
    case Some(count) => ParseInt(count)
  }

  /** Lines 67-94: the checks and extractions of the second `try` block, in source order. */
  function Validate(a: string, h: Header, save: bool): Outcome
  {
    if h.test < 0 || h.test > 9 then InvalidTest
    else if h.platform !in Platforms then InvalidPlatform
    else match Substring(a, IndexOf(a, '.') + 1, IndexOf(a, '-'))
      case None => RunFailure
      case Some(name) =>
        var solution := SolutionSpecifier(name, h.test);
        if !h.benchmarking then RunOnce(h.platform, solution)
        else match ParseIterations(a)
          case None => RunFailure
          case Some(iterations) =>
            if iterations <= 2 then TooFewIterations
            else Benchmark(h.platform, solution, iterations, save)
  }

  /** What `main` does with the argument `a` once the save flag is known and stripped. */
  function Route(a: string, save: bool): Outcome
  {
    match ParseHeader(a)
    case None => ArgumentError
    case Some(h) => Validate(a, h, save)
  }

  /** What `main` makes of its first argument. */
  function Dispatch(arg: string): Outcome
  {
    if arg == [] then Crash else Route(StripSave(arg), HasSaveFlag(arg))
  }

  /**
   * `main` up to the point where a solution is run: it strips the save flag from `args[0]`
   * in place, then parses and validates what remains.
   */
  method Launch(args: array<string>) returns (outcome: Outcome)
    modifies args
    ensures args.Length == 0 ==> outcome == Crash
    ensures args.Length > 0 ==> outcome == Dispatch(old(args[0]))
    ensures args.Length > 0 && old(args[0]) != [] ==> args[0] == StripSave(old(args[0]))
    ensures forall i :: 0 <= i < args.Length && (i > 0 || old(args[0]) == []) ==> args[i] == old(args[i])
  {
    if args.Length == 0 || args[0] == [] {
      return Crash;
    }
    var save := false;
    if args[0][|args[0]| - 1] == 'S' {
      save := true;
      args[0] := args[0][..|args[0]| - 1];
    }
    outcome := Route(args[0], save);
  }

  /** The test-number range check of lines 67-69 never fires: one parsed character is a digit. */
  lemma TestCheckUnreachable(arg: string)
    ensures Dispatch(arg) != InvalidTest
  {
  }

  /**
   * What an accepted argument means: the platform is the text before the first `.` and one
   * of the seven keys, the name lies between the first `.` and the first `-`, the test is
   * the digit after the `-`, benchmarking is on iff a `B` follows the `-`, a benchmark has
   * more than two iterations and its save flag is the trailing `S`.
   */
  lemma AcceptedArgument(arg: string)
    requires Dispatch(arg).Launched()
    ensures arg != []
    ensures var a, o := StripSave(arg), Dispatch(arg);
      var dot, dash := IndexOf(a, '.'), IndexOf(a, '-');
      && 0 <= dot < dash < |a| - 1
      && o.platform == a[..dot] && o.platform in Platforms
      && o.solution.name == a[dot + 1..dash]
      && IsDigit(a[dash + 1]) && o.solution.test == (a[dash + 1] - '0') as int
      && (o.Benchmark? <==> 'B' in a[dash + 1..])
      && (o.Benchmark? ==> o.iterations > 2 && ParseIterations(a) == Some(o.iterations))
      && (o.Benchmark? ==> (o.save <==> arg[|arg| - 1] == 'S'))
  {
    var a := StripSave(arg);
    var h := ParseHeader(a).value;
    RouteOf(a, h, HasSaveFlag(arg));
  }

  /** Any platform outside the seven keys is turned away before a solution runs. */
  lemma UnknownPlatformRejected(arg: string)
    requires arg != []
    requires var a := StripSave(arg); 0 <= IndexOf(a, '.') && a[..IndexOf(a, '.')] !in Platforms
    ensures !Dispatch(arg).Launched()
  {
  }

  // ---------------------------------------------------------------------------
  // The argument a well-formed request is written as

  /** A request as a user writes it: a benchmark when `iterations` is present. */
  datatype Request = Request(platform: string, name: string, test: int, iterations: Option<nat>, save: bool)

  /** A request whose parts can be told apart once written out. */
  predicate Plain(r: Request)
  {
    '.' !in r.platform && '-' !in r.platform && '-' !in r.name && 0 <= r.test <= 9
    && (r.iterations.Some? ==> r.iterations.value <= INT_MAX)
  }

  function DigitChar(d: int): (c: char)
    requires 0 <= d <= 9
    ensures IsDigit(c) && (c - '0') as int == d
  {
    '0' + d as char
  }

  /** `B{N}` for a benchmark, nothing otherwise. */
  function BenchSuffix(r: Request): string
  {
    if r.iterations.Some? then "B" + Decimal(r.iterations.value) else ""
  }

  /** `{Platform}.{Name}-{Rest}`. */
  function Compose(platform: string, name: string, rest: string): string
  {
    platform + ("." + (name + ("-" + rest)))
  }

  /** `{Platform}.{Name}-{Test}[B{N}]`: the argument without its save flag. */
  function Body(r: Request): string
    requires Plain(r)
  {
    Compose(r.platform, r.name, [DigitChar(r.test)] + BenchSuffix(r))
  }

  /** `{Platform}.{Name}-{Test}[B{N}][S]`. */
  function Render(r: Request): string
    requires Plain(r)
  {
    Body(r) + (if r.save then "S" else "")
  }

  /** The outcome the source gives a well-formed request. */
  function Expected(r: Request): Outcome
  {
    var solution := SolutionSpecifier(r.name, r.test);
    if r.platform !in Platforms then InvalidPlatform
    else match r.iterations
    case None => RunOnce(r.platform, solution)
    case Some(n) => if n <= 2 then TooFewIterations else Benchmark(r.platform, solution, n, r.save)
  }

  /** The trailing `S` of a rendered request is exactly its save flag. */
  lemma RenderSaveFlag(r: Request)
    requires Plain(r)
    ensures Render(r) != [] && (HasSaveFlag(Render(r)) <==> r.save) && StripSave(Render(r)) == Body(r)
  {
    var a, arg := Body(r), Render(r);
    if !r.save {
      assert arg == a;
      if r.iterations.Some? {
        var digits := Decimal(r.iterations.value);
        assert a[|a| - 1] == digits[|digits| - 1];
      } else {
        assert a[|a| - 1] == DigitChar(r.test);
      }
    }
  }

  /** The first `.` of a composed argument ends the platform. */
  lemma ComposeDot(p: string, name: string, rest: string)
    requires '.' !in p
    ensures IndexOf(Compose(p, name, rest), '.') == |p|
    ensures Compose(p, name, rest)[..|p|] == p
  {
    var x := "." + (name + ("-" + rest));
    assert Compose(p, name, rest) == p + x;
    IndexOfAppend(p, x, '.');
    assert IndexOf(x, '.') == 0;
  }

  /** The first `-` of a composed argument ends the name and starts the rest. */
  lemma ComposeDash(p: string, name: string, rest: string)
    requires '-' !in p && '-' !in name
    ensures IndexOf(Compose(p, name, rest), '-') == |p| + 1 + |name|
    ensures Compose(p, name, rest)[|p| + 1..|p| + 1 + |name|] == name
    ensures Compose(p, name, rest)[|p| + 1 + |name| + 1..] == rest
  {
    ComposeDashIndex(p, name, rest);
    ComposeParts(p, name, rest);
  }

  lemma ComposeDashIndex(p: string, name: string, rest: string)
    requires '-' !in p && '-' !in name
    ensures IndexOf(Compose(p, name, rest), '-') == |p| + 1 + |name|
  {
    var z := "-" + rest;
    var y := name + z;
    var x := "." + y;
    assert Compose(p, name, rest) == p + x;
    IndexOfAppend(p, x, '-');
    IndexOfAppend(".", y, '-');
    IndexOfAppend(name, z, '-');
    assert IndexOf(z, '-') == 0;
  }

  lemma ComposeParts(p: string, name: string, rest: string)
    ensures Compose(p, name, rest)[|p| + 1..|p| + 1 + |name|] == name
    ensures Compose(p, name, rest)[|p| + 1 + |name| + 1..] == rest
  {
    var a := Compose(p, name, rest);
    var y := name + ("-" + rest);
    assert a[|p| + 1..] == y;
    assert y[..|name|] == name;
    assert y[|name| + 1..] == rest;
  }

  /** The header read off any argument whose platform, test character and `B` flag are known. */
  lemma HeaderOf(a: string, dot: int, dash: int, p: string, d: char, b: bool)
    requires IndexOf(a, '.') == dot && IndexOf(a, '-') == dash
    requires Substring(a, 0, dot) == Some(p)
    requires Substring(a, dash + 1, dash + 2) == Some([d])
    requires IsDigit(d) && (('B' in a[dash + 1..]) <==> b)
    ensures ParseHeader(a) == Some(Header(p, (d - '0') as int, b))
  {
    ParseOneChar(d);
  }

  /** The header of a composed argument whose rest starts with a digit. */
  lemma ComposeHeader(p: string, name: string, d: char, suffix: string)
    requires '.' !in p && '-' !in p && '-' !in name && IsDigit(d)
    ensures ParseHeader(Compose(p, name, [d] + suffix)) == Some(Header(p, (d - '0') as int, 'B' in suffix))
  {
    var rest := [d] + suffix;
    ComposeDot(p, name, rest);
    ComposeDash(p, name, rest);
    HeaderAt(Compose(p, name, rest), |p|, |p| + 1 + |name|, p, d, suffix);
  }

  /** The header of any argument whose platform ends at `dot` and whose rest follows the `-` at `dash`. */
  lemma HeaderAt(a: string, dot: int, dash: int, p: string, d: char, suffix: string)
    requires IndexOf(a, '.') == dot && IndexOf(a, '-') == dash && IsDigit(d)
    requires 0 <= dot <= |a| && a[..dot] == p
    requires 0 <= dash < |a| && a[dash + 1..] == [d] + suffix
    ensures ParseHeader(a) == Some(Header(p, (d - '0') as int, 'B' in suffix))
  {
    SubstringOf(a, 0, dot, p);
    TestCharAt(a, dash, d, suffix);
    HeaderOf(a, dot, dash, p, d, 'B' in suffix);
  }

  /** The character after the `-` is the test digit, and a `B` follows it exactly when the suffix has one. */
  lemma TestCharAt(a: string, dash: int, d: char, suffix: string)
    requires 0 <= dash < |a| && a[dash + 1..] == [d] + suffix && IsDigit(d)
    ensures Substring(a, dash + 1, dash + 2) == Some([d])
    ensures ('B' in a[dash + 1..]) <==> 'B' in suffix
  {
    assert a[dash + 1..dash + 2] == a[dash + 1..][..1];
    SubstringOf(a, dash + 1, dash + 2, [d]);
  }

  /** The header of a rendered request: its platform, its test and whether it benchmarks. */
  lemma BodyHeader(r: Request)
    requires Plain(r)
    ensures ParseHeader(Body(r)) == Some(Header(r.platform, r.test, r.iterations.Some?))
  {
    ComposeHeader(r.platform, r.name, DigitChar(r.test), BenchSuffix(r));
  }

  /** The name of a composed argument lies between its first `.` and its first `-`. */
  lemma ComposeName(p: string, name: string, rest: string)
    requires '.' !in p && '-' !in p && '-' !in name
    ensures var a := Compose(p, name, rest);
      Substring(a, IndexOf(a, '.') + 1, IndexOf(a, '-')) == Some(name)
  {
    ComposeDot(p, name, rest);
    ComposeDash(p, name, rest);
    NameAt(Compose(p, name, rest), |p|, |p| + 1 + |name|, name);
  }

  /** The name of any argument lies between its first `.` and its first `-`. */
  lemma NameAt(a: string, dot: int, dash: int, name: string)
    requires IndexOf(a, '.') == dot && IndexOf(a, '-') == dash
    requires 0 <= dot + 1 <= dash <= |a| && a[dot + 1..dash] == name
    ensures Substring(a, IndexOf(a, '.') + 1, IndexOf(a, '-')) == Some(name)
  {
    SubstringOf(a, dot + 1, dash, name);
  }

  /** The iteration count of a composed benchmark argument. */
  lemma ComposeIterations(p: string, name: string, d: char, n: nat)
    requires '-' !in p && '-' !in name && n <= INT_MAX
    ensures ParseIterations(Compose(p, name, [d] + ("B" + Decimal(n)))) == Some(n)
  {
    var rest := [d] + ("B" + Decimal(n));
    var a := Compose(p, name, rest);
    ComposeDash(p, name, rest);
    assert rest[2..] == Decimal(n);
    DropFurther(a, |p| + 1 + |name| + 1, rest, 2);
    IterationsOf(a, n);
  }

  /** Dropping `j` more characters from a suffix of `a`. */
  lemma DropFurther(a: string, k: nat, rest: string, j: nat)
    requires k <= |a| && a[k..] == rest && j <= |rest|
    ensures a[k + j..] == rest[j..]
  {
    assert a[k + j..] == a[k..][j..];
  }

  /** The iteration count read off any argument that ends in the digits of `n` three places after its `-`. */
  lemma IterationsOf(a: string, n: nat)
    requires n <= INT_MAX
    requires 0 <= IndexOf(a, '-') + 3 <= |a| && a[IndexOf(a, '-') + 3..] == Decimal(n)
    ensures ParseIterations(a) == Some(n)
  {
    var k := IndexOf(a, '-') + 3;
    assert a[k..|a|] == a[k..];
    assert Substring(a, k, |a|) == Some(Decimal(n));
    assert ParseInt(Decimal(n)) == Some(n) by { ParseDecimal(n, INT_MIN, INT_MAX); }
  }

  /**
   * Round trip: writing a well-formed request as an argument and handing it to `main` runs
   * that solution on that test, or benchmarks it with that many iterations and that save
   * flag, or rejects an iteration count of 2 or less.
   */
  lemma DispatchRender(r: Request)
    requires Plain(r)
    ensures Dispatch(Render(r)) == Expected(r)
  {
    var a := Body(r);
    RenderSaveFlag(r);
    BodyHeader(r);
    BodyName(r);
    if r.iterations.Some? {
      BodyIterations(r);
    }
    var h := Header(r.platform, r.test, r.iterations.Some?);
    RouteOf(a, h, r.save);
    ValidateOf(a, h, r);
  }

  /** The name read off a rendered request is its own. */
  lemma BodyName(r: Request)
    requires Plain(r)
    ensures Substring(Body(r), IndexOf(Body(r), '.') + 1, IndexOf(Body(r), '-')) == Some(r.name)
  {
    ComposeName(r.platform, r.name, [DigitChar(r.test)] + BenchSuffix(r));
  }

  /** The iteration count read off a rendered benchmark request is its own. */
  lemma BodyIterations(r: Request)
    requires Plain(r) && r.iterations.Some?
    ensures ParseIterations(Body(r)) == Some(r.iterations.value)
  {
    ComposeIterations(r.platform, r.name, DigitChar(r.test), r.iterations.value);
  }

  lemma SubstringOf(s: string, begin: int, end: int, t: string)
    requires 0 <= begin <= end <= |s| && s[begin..end] == t
    ensures Substring(s, begin, end) == Some(t)
  {
  }

  /** `Route` goes on to `Validate` with the header it reads. */
  lemma RouteOf(a: string, h: Header, save: bool)
    requires ParseHeader(a) == Some(h)
    ensures Route(a, save) == Validate(a, h, save)
  {
  }

  /** `Validate` on any argument whose name and iteration count are those of `r`. */
  lemma ValidateOf(a: string, h: Header, r: Request)
    requires h == Header(r.platform, r.test, r.iterations.Some?) && 0 <= r.test <= 9
    requires Substring(a, IndexOf(a, '.') + 1, IndexOf(a, '-')) == Some(r.name)
    requires r.iterations.Some? ==> ParseIterations(a) == Some(r.iterations.value)
    ensures Validate(a, h, r.save) == Expected(r)
  {
    if r.platform in Platforms && r.iterations.Some? {
      assert ParseIterations(a) == Some(r.iterations.value);
    }
  }

  /** An iteration count of 3 is the smallest that the check of lines 92-94 lets through. */
  lemma IterationThreshold(r: Request)
    requires Plain(r) && r.platform in Platforms && r.iterations.Some?
    ensures Dispatch(Render(r)).Benchmark? <==> r.iterations.value >= 3
  {
    DispatchRender(r);
  }

  // ---------------------------------------------------------------------------
  // The last 80% of the runtimes (lines 100-107)

  /** `(int) Math.floor(n * 0.2)`: how many of the earliest runtimes are dropped. */
  function DroppedCount(n: nat): int
  {
    (n as real * 0.2).Floor
  }

  /** `(int) Math.ceil(n * 0.8)`: the length of the trimmed array. */
  function KeptCount(n: nat): int
  {
    -((-(n as real * 0.8)).Floor)
  }

  /**
   * ⌊0.2·n⌋ = n div 5 and ⌈0.8·n⌉ = n − n div 5: the two counts add up to `n`, so the copy
   * stays in bounds, and three or more runtimes keep at least three.
   */
  lemma TrimCounts(n: nat)
    ensures DroppedCount(n) == n / 5 && KeptCount(n) == n - n / 5
    ensures DroppedCount(n) + KeptCount(n) == n
    ensures n >= 3 ==> KeptCount(n) >= 3
  {
    var q, m := n / 5, n % 5;
    assert n == 5 * q + m && 0 <= m < 5;
    var low := n as real * 0.2;
    assert low == q as real + m as real * 0.2;
    assert q as real <= low < (q + 1) as real;
    var high := -(n as real * 0.8);
    assert high == -(4 * q) as real - m as real * 0.8;
    if m == 0 {
      assert high == -(4 * q) as real;
    } else {
      assert -(4 * q + m) as real <= high < -(4 * q + m - 1) as real;
    }
  }

  /** `System.arraycopy` of the last ⌈0.8·N⌉ runtimes into a new array. */
  method LastEightyPercent(runtimes: array<int>) returns (trimmed: array<int>)
    ensures fresh(trimmed)
    ensures trimmed[..] == runtimes[DroppedCount(runtimes.Length)..]
  {
    TrimCounts(runtimes.Length);
    var dropped := DroppedCount(runtimes.Length);
    trimmed := new int[KeptCount(runtimes.Length)];
    forall i | 0 <= i < trimmed.Length {
      trimmed[i] := runtimes[dropped + i];
    }
  }

  /**
   * Lines 100-107: statistics over all runtimes and over the last 80%. Statistics sorts a
   * copy, so the runtimes (which the CSV export receives) keep their iteration order.
   */
  method BenchmarkStatistics(runtimes: array<int>) returns (allRuns: Statistics, last80p: Statistics)
    requires runtimes.Length >= 3
    ensures Summarize(runtimes[..]) == Some(allRuns.Values())
    ensures Summarize(runtimes[runtimes.Length / 5..]) == Some(last80p.Values())
    ensures runtimes[..] == old(runtimes[..])
  {
    var trimmed := LastEightyPercent(runtimes);
    TrimCounts(runtimes.Length);
    allRuns := new Statistics(runtimes);
    last80p := new Statistics(trimmed);
  }
}
