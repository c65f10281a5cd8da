/**
 * Codeforces problem 1A ("Theatre Square"): an `n` by `m` square is paved
 * with `a` by `a` flagstones that may stick out but not be broken; the
 * answer is the number of flagstones, `ceil(n / a) * ceil(m / a)`.
 *
 * The three numbers come from a scanner that reads whitespace-separated
 * tokens line by line; standard input is the sequence of its lines.  A
 * token that is not a `long`, or a zero divisor, makes Java throw: `None`.
 * `long` overflow is not modelled.
 */
module TheatreSquare {
  import opened Wrappers
  import opened JavaText

  /** The tokens of all lines, in order: line boundaries and blank lines leave no trace. */
  function AllTokens(lines: seq<string>): seq<string>
  {
    if lines == [] then [] else Tokens(lines[0]) + AllTokens(lines[1..])
  }

  /** Splitting the input into two blocks of lines does not change the token stream. */
  lemma {:induction false} AllTokensAppend(a: seq<string>, b: seq<string>)
    ensures AllTokens(a + b) == AllTokens(a) + AllTokens(b)
  {
    if a == [] {
      assert a + b == b;
    } else {
      assert (a + b)[1..] == a[1..] + b;
      AllTokensAppend(a[1..], b);
    }
  }

  /** A line without tokens (empty or all blanks) is skipped. */
  lemma BlankLineSkipped(line: string, rest: seq<string>)
    requires forall i :: 0 <= i < |line| ==> IsDelimiter(line[i])
    ensures AllTokens([line] + rest) == AllTokens(rest)
  {
    BlankTokens(line);
    assert ([line] + rest)[1..] == rest;
  }

  lemma {:induction false} BlankTokens(s: string)
    requires forall i :: 0 <= i < |s| ==> IsDelimiter(s[i])
    ensures Tokens(s) == []
    decreases |s|
  {
    if s != [] {
      BlankTokens(s[1..]);
    }
  }

  /** The value the k-th `nextLong()` call returns on a token stream: -1 once the stream is exhausted. */
  function NextValue(ts: seq<string>, k: nat): Option<int>
  {
    if k < |ts| then ParseLong(ts[k]) else Some(-1)
  }

  /** The token stream after one `nextLong()` call. */
  function Rest(ts: seq<string>): seq<string>
  {
    if ts == [] then [] else ts[1..]
  }

  /** Reading one token shifts the position of every later call by one. */
  lemma NextValueRest(ts: seq<string>, k: nat)
    ensures NextValue(Rest(ts), k) == NextValue(ts, k + 1)
  {
  }

  /** p1A.FastScanner: a line reader and the tokenizer of the current line (`None` before the first line). */
  class FastScanner {
    var lines: seq<string>
    var st: Option<seq<string>>

    /** The tokens still to be handed out: the rest of the current line, then every unread line. */
    ghost function Pending(): seq<string>
      reads this
    {
      (if st.Some? then st.value else []) + AllTokens(lines)
    }

    constructor (input: seq<string>)
      ensures lines == input && st == None
      ensures Pending() == AllTokens(input)
    {
      lines := input;
      st := None;
    }

    /**
     * nextLong(): reads further lines until one has a token left, and
     * parses the next token; at the end of the input it returns -1 and
     * nothing remains.
     */
    method NextLong() returns (r: Option<int>)
      modifies this
      ensures r == NextValue(old(Pending()), 0)
      ensures Pending() == Rest(old(Pending()))
    {
      while st.None? || st.value == []
        invariant Pending() == old(Pending())
        decreases |lines|
      {
        if lines == [] {
          return Some(-1);
        }
        st := Some(Tokens(lines[0]));
        lines := lines[1..];
      }
      var token := st.value[0];
      st := Some(st.value[1..]);
      r := ParseLong(token);
    }
  }

  /** Java's `/` on `long`, rounding toward zero for either sign of the divisor. */
  function LongDiv(x: int, d: int): int
    requires d != 0
  {
    if d > 0 then TruncDiv(x, d) else -TruncDiv(x, -d)
  }

  /** The number of flagstones along a side of length `n`. */
  function Tiles(n: int, a: int): int
    requires a != 0
  {
    LongDiv(n + a - 1, a)
  }

  /** The printed answer for the three values read, or `None` when Java throws. */
  function Flagstones(n: Option<int>, m: Option<int>, a: Option<int>): Option<int>
  {
    if n.None? || m.None? || a.None? || a.value == 0 then None
    else Some(Tiles(n.value, a.value) * Tiles(m.value, a.value))
  }

  /** For positive sizes, `(n + a - 1) / a` is the ceiling of n / a: the fewest flagstones that cover n. */
  lemma TilesIsCeiling(n: int, a: int)
    requires n >= 1 && a >= 1
    ensures var h := Tiles(n, a);
      && h >= 1 && (h - 1) * a < n <= h * a
      && forall k: int :: k * a >= n ==> k >= h
  {
    var h := Tiles(n, a);
    assert h * a <= n + a - 1 < h * a + a;
    forall k: int | k * a >= n
      ensures k >= h
    {
      MulMono(k, h - 1, a);
    }
  }

  /** A square no larger than one flagstone needs exactly one. */
  lemma OneFlagstone(n: int, m: int, a: int)
    requires 1 <= n <= a && 1 <= m <= a
    ensures Flagstones(Some(n), Some(m), Some(a)) == Some(1)
  {
    TilesIsCeiling(n, a);
    TilesIsCeiling(m, a);
    MulMono(1, Tiles(n, a) - 1, a);
    MulMono(1, Tiles(m, a) - 1, a);
  }

  /** The flagstones laid out in a grid cover the whole square and no row or column of them is superfluous. */
  lemma FlagstonesCover(n: int, m: int, a: int)
    requires n >= 1 && m >= 1 && a >= 1
    ensures var r := Flagstones(Some(n), Some(m), Some(a));
      && r.Some? && r.value >= 1
      && r.value == Tiles(n, a) * Tiles(m, a)
      && n <= Tiles(n, a) * a && m <= Tiles(m, a) * a
      && (Tiles(n, a) - 1) * a < n && (Tiles(m, a) - 1) * a < m
  {
    TilesIsCeiling(n, a);
    TilesIsCeiling(m, a);
  }

  /** p1A.main: read n, m and a with the scanner and compute the number of flagstones. */
  method Solve(input: seq<string>) returns (result: Option<int>)
    ensures var ts := AllTokens(input);
      result == Flagstones(NextValue(ts, 0), NextValue(ts, 1), NextValue(ts, 2))
  {
    ghost var ts := AllTokens(input);
    NextValueRest(ts, 0);
    NextValueRest(ts, 1);
    NextValueRest(Rest(ts), 0);
    var fs := new FastScanner(input);
    var n := fs.NextLong();
    if n.None? {
      return None;
    }
    var m := fs.NextLong();
    if m.None? {
      return None;
    }
    var a := fs.NextLong();
    if a.None? {
      return None;
    }
    if a.value == 0 {
      return None;
    }
    var horizontal := LongDiv(n.value + a.value - 1, a.value);
    var vertical := LongDiv(m.value + a.value - 1, a.value);
    result := Some(horizontal * vertical);
  }
}
