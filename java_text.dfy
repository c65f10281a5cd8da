/**
 * The small pieces of the Java platform that the modelled code relies on: truncating
 * division, `String.indexOf`, `String.trim`, `String.split`, `StringTokenizer` and
 * `Integer.parseInt` / `Long.parseLong`. Each is stated in its own terms so that the
 * models of `Main.java` and of the bundled solutions can share one definition.
 */
module JavaText {
  import opened Wrappers

  const INT_MIN: int := -0x8000_0000
  const INT_MAX: int := 0x7fff_ffff
  const LONG_MIN: int := -0x8000_0000_0000_0000
  const LONG_MAX: int := 0x7fff_ffff_ffff_ffff

  // ---------------------------------------------------------------------------
  // Arithmetic

  /** Java's `/` on `int`, `long` and `Apint` with a positive divisor: the quotient rounded toward zero. */
  function TruncDiv(a: int, b: int): (q: int)
    requires b > 0
    ensures a >= 0 ==> 0 <= q * b <= a < q * b + b
    ensures a < 0 ==> q * b - b < a <= q * b <= 0
    ensures a >= 0 ==> q >= 0
    ensures a < 0 ==> q <= 0
  {
    DivisionFacts(a, b);
    DivisionFacts(-a, b);
    if a >= 0 then a / b else -((-a) / b)
  }

  lemma DivisionFacts(a: int, b: int)
    requires b > 0
    ensures a >= 0 ==> 0 <= (a / b) * b <= a < (a / b) * b + b
    ensures (-(a / b)) * b == -((a / b) * b)
  {
  }

  /** Multiplying by a non-negative number keeps the order. */
  lemma MulMono(x: int, y: int, a: int)
    requires a >= 0
    ensures x <= y ==> x * a <= y * a
  {
  }

  /** Euclidean division of `k * t + r` by `k` gives back `t` and `r` when `0 <= r < k`. */
  lemma DivisionUnique(k: int, t: int, r: int)
    requires k > 0 && 0 <= r < k
    ensures (k * t + r) / k == t
    ensures (k * t + r) % k == r
  {
    var a := k * t + r;
    var q, m := a / k, a % k;
    assert a == q * k + m && 0 <= m < k;
    assert (t - q) * k == m - r;
    MulMono(1, t - q, k);
    MulMono(t - q, -1, k);
  }

  /** `Apint.mod` with a positive divisor: the remainder that goes with `TruncDiv`, signed like the dividend. */
  function TruncMod(a: int, b: int): (r: int)
    requires b > 0
    ensures a == TruncDiv(a, b) * b + r
    ensures a >= 0 ==> 0 <= r < b
    ensures a < 0 ==> -b < r <= 0
  {
    a - TruncDiv(a, b) * b
  }

  // ---------------------------------------------------------------------------
  // String.indexOf and its behaviour on concatenations

  /** `s.indexOf(c)`: the first position of `c` in `s`, or -1 when `c` does not occur. */
  function IndexOf(s: string, c: char): (r: int)
    ensures -1 <= r < |s|
    ensures r == -1 <==> c !in s
    ensures r >= 0 ==> s[r] == c && c !in s[..r]
  {
    if |s| == 0 then -1
    else if s[0] == c then 0
    else
      var k := IndexOf(s[1..], c);
      if k == -1 then -1 else (assert s[..k + 1] == [s[0]] + s[1..][..k]; k + 1)
  }

  /** The first occurrence is the only position before which `c` does not occur. */
  lemma IndexOfUnique(s: string, c: char, k: int)
    requires 0 <= k < |s| && s[k] == c && c !in s[..k]
    ensures IndexOf(s, c) == k
  {
  }

  /** Where the first `c` of a concatenation lies. */
  lemma {:induction false} IndexOfAppend(a: string, b: string, c: char)
    ensures c in a ==> IndexOf(a + b, c) == IndexOf(a, c)
    ensures c !in a && c in b ==> IndexOf(a + b, c) == |a| + IndexOf(b, c)
    ensures c !in a && c !in b ==> IndexOf(a + b, c) == -1
  {
    if a == [] {
      assert a + b == b;
    } else {
      assert (a + b)[1..] == a[1..] + b;
      assert (a + b)[0] == a[0];
      IndexOfAppend(a[1..], b, c);
      assert c in a <==> a[0] == c || c in a[1..];
    }
  }

  // ---------------------------------------------------------------------------
  // String.trim

  /** `String.trim` removes every character whose code is at most U+0020 from both ends. */
  predicate IsTrimmed(c: char) { c <= ' ' }

  /** The number of leading characters that `trim` removes. */
  function LeadingTrimmed(s: string): (k: nat)
    ensures k <= |s|
    ensures forall i :: 0 <= i < k ==> IsTrimmed(s[i])
    ensures k < |s| ==> !IsTrimmed(s[k])
  {
    if s == [] || !IsTrimmed(s[0]) then 0 else 1 + LeadingTrimmed(s[1..])
  }

  /** The number of trailing characters that `trim` removes. */
  function TrailingTrimmed(s: string): (k: nat)
    ensures k <= |s|
    ensures forall i :: |s| - k <= i < |s| ==> IsTrimmed(s[i])
    ensures k < |s| ==> !IsTrimmed(s[|s| - 1 - k])
  {
    if s == [] || !IsTrimmed(s[|s| - 1]) then 0 else 1 + TrailingTrimmed(s[..|s| - 1])
  }

  /** `s.trim()`: the longest middle part of `s` that neither starts nor ends with a trimmed character. */
  function Trim(s: string): (r: string)
    ensures |r| <= |s|
    ensures r == [] <==> forall i :: 0 <= i < |s| ==> IsTrimmed(s[i])
    ensures r != [] ==> !IsTrimmed(r[0]) && !IsTrimmed(r[|r| - 1])
    ensures r != [] ==> r == s[LeadingTrimmed(s)..|s| - TrailingTrimmed(s)]
  {
    var lead := LeadingTrimmed(s);
    if lead == |s| then []
    else
      var trail := TrailingTrimmed(s);
      assert !IsTrimmed(s[lead]);
      s[lead..|s| - trail]
  }

  // ---------------------------------------------------------------------------
  // StringTokenizer with its default delimiters

  /** The default delimiter set of `java.util.StringTokenizer`: space, tab, newline, carriage return, form feed. */
  predicate IsDelimiter(c: char) { c == ' ' || c == '\t' || c == '\n' || c == '\r' || c == '\U{C}' }

  predicate NoDelimiter(t: string) { forall i :: 0 <= i < |t| ==> !IsDelimiter(t[i]) }

  /** The length of the token at the start of `s`. */
  function TokenLength(s: string): (n: nat)
    ensures n <= |s|
    ensures NoDelimiter(s[..n])
    ensures n < |s| ==> IsDelimiter(s[n])
  {
    if s == [] || IsDelimiter(s[0]) then 0 else 1 + TokenLength(s[1..])
  }

  /** The tokens that successive `nextToken()` calls return: maximal non-empty runs of non-delimiters. */
  function Tokens(s: string): (r: seq<string>)
    ensures forall k :: 0 <= k < |r| ==> r[k] != [] && NoDelimiter(r[k])
    decreases |s|
  {
    if s == [] then []
    else if IsDelimiter(s[0]) then Tokens(s[1..])
    else
      var n := TokenLength(s);
      [s[..n]] + Tokens(s[n..])
  }

  /** Tokenizing tokens joined by single spaces gives the tokens back. */
  lemma {:induction false} TokensOfJoin(ts: seq<string>)
    requires forall k :: 0 <= k < |ts| ==> ts[k] != [] && NoDelimiter(ts[k])
    ensures Tokens(JoinSpaced(ts)) == ts
  {
    if |ts| == 1 {
      TokensOfWord(ts[0], []);
      assert ts[0] + [] == ts[0];
    } else if |ts| > 1 {
      var rest := JoinSpaced(ts[1..]);
      assert JoinSpaced(ts) == ts[0] + (" " + rest);
      TokensOfWord(ts[0], " " + rest);
      TokensOfSpace(rest);
      TokensOfJoin(ts[1..]);
      assert ts == [ts[0]] + ts[1..];
    }
  }

  /** A token followed by a delimiter (or by nothing) is returned first. */
  lemma TokensOfWord(w: string, rest: string)
    requires w != [] && NoDelimiter(w)
    requires rest == [] || IsDelimiter(rest[0])
    ensures Tokens(w + rest) == [w] + Tokens(rest)
  {
    TokenLengthOfWord(w, rest);
    var s := w + rest;
    assert s[0] == w[0];
    assert s[..|w|] == w;
    assert s[|w|..] == rest;
  }

  /** A leading space is skipped. */
  lemma TokensOfSpace(r: string)
    ensures Tokens(" " + r) == Tokens(r)
  {
    assert (" " + r)[1..] == r;
  }

  /** Tokens separated by single spaces. */
  function JoinSpaced(ts: seq<string>): string
  {
    if ts == [] then [] else if |ts| == 1 then ts[0] else ts[0] + " " + JoinSpaced(ts[1..])
  }

  lemma {:induction false} TokenLengthOfWord(w: string, rest: string)
    requires NoDelimiter(w)
    requires rest == [] || IsDelimiter(rest[0])
    ensures TokenLength(w + rest) == |w|
  {
    if w != [] {
      assert (w + rest)[1..] == w[1..] + rest;
      TokenLengthOfWord(w[1..], rest);
    } else {
      assert w + rest == rest;
    }
  }

  // ---------------------------------------------------------------------------
  // String.split with a one-character, non-special pattern

  /** Every field between occurrences of `c`, empty ones included. */
  function Fields(s: string, c: char): (r: seq<string>)
    ensures |r| >= 1
    ensures forall k :: 0 <= k < |r| ==> c !in r[k]
    decreases |s|
  {
    var k := IndexOf(s, c);
    if k == -1 then [s] else [s[..k]] + Fields(s[k + 1..], c)
  }

  function DropTrailingEmpty(fs: seq<string>): (r: seq<string>)
    ensures |r| <= |fs| && r == fs[..|r|]
    ensures r == [] || r[|r| - 1] != []
    ensures forall k :: |r| <= k < |fs| ==> fs[k] == []
  {
    if fs != [] && fs[|fs| - 1] == [] then DropTrailingEmpty(fs[..|fs| - 1]) else fs
  }

  /**
   * `s.split(c)`: when `c` does not occur the result is `[s]`; otherwise it is the list of
   * fields with trailing empty fields removed (a leading empty field is kept).
   */
  function Split(s: string, c: char): (r: seq<string>)
    ensures c !in s ==> r == [s]
  {
    if c !in s then [s] else DropTrailingEmpty(Fields(s, c))
  }

  /** A field free of `c` followed by `c` is split off as the first field. */
  lemma FieldsCons(a: string, rest: string, c: char)
    requires c !in a
    ensures Fields(a + [c] + rest, c) == [a] + Fields(rest, c)
  {
    var s := a + [c] + rest;
    IndexOfAppend(a, [c] + rest, c);
    assert s == a + ([c] + rest);
    assert IndexOf([c] + rest, c) == 0;
    assert s[..|a|] == a;
    assert s[|a| + 1..] == rest;
  }

  lemma FieldsJoin3(a: string, b: string, d: string, c: char)
    requires c !in a && c !in b && c !in d
    ensures Fields(a + [c] + b + [c] + d, c) == [a, b, d]
  {
    var r := b + [c] + d;
    assert a + [c] + b + [c] + d == a + [c] + r;
    assert IndexOf(d, c) == -1;
    FieldsCons(b, d, c);
    FieldsCons(a, r, c);
  }

  /** Splitting three `c`-free fields, the last non-empty, joined by `c` gives them back. */
  lemma SplitJoin3(a: string, b: string, d: string, c: char)
    requires c !in a && c !in b && c !in d && d != []
    ensures Split(a + [c] + b + [c] + d, c) == [a, b, d]
  {
    var s := a + [c] + b + [c] + d;
    FieldsJoin3(a, b, d, c);
    assert c in s by { assert s[|a|] == c; }
  }

  // ---------------------------------------------------------------------------
  // Integer.parseInt and Long.parseLong (radix 10, ASCII digits)

  predicate IsDigit(c: char) { '0' <= c <= '9' }

  predicate AllDigits(s: string) { forall i :: 0 <= i < |s| ==> IsDigit(s[i]) }

  /** The value of a string of decimal digits, most significant first. */
  function DigitsValue(s: string): (v: nat)
    requires AllDigits(s)
  {
    if s == [] then 0 else 10 * DigitsValue(s[..|s| - 1]) + (s[|s| - 1] - '0') as nat
  }

  /**
   * `Integer.parseInt(s)` (with `lo`, `hi` the `int` range) or `Long.parseLong(s)` (the `long`
   * range): an optional `+` or `-` followed by at least one digit, whose value lies in `[lo, hi]`;
   * anything else raises `NumberFormatException`, modelled as `None`.
   */
  function ParseNumber(s: string, lo: int, hi: int): (r: Option<int>)
    ensures r.Some? ==> lo <= r.value <= hi
    ensures r.Some? ==> |s| >= 1
  {
    if s == [] then None
    else
      var negative := s[0] == '-';
      var digits := if s[0] == '-' || s[0] == '+' then s[1..] else s;
      if digits == [] || !AllDigits(digits) then None
      else
        var v: int := if negative then -(DigitsValue(digits) as int) else DigitsValue(digits);
        if lo <= v <= hi then Some(v) else None
  }

  function ParseInt(s: string): (r: Option<int>)
    ensures r.Some? ==> INT_MIN <= r.value <= INT_MAX
  {
    ParseNumber(s, INT_MIN, INT_MAX)
  }

  function ParseLong(s: string): (r: Option<int>)
    ensures r.Some? ==> LONG_MIN <= r.value <= LONG_MAX
  {
    ParseNumber(s, LONG_MIN, LONG_MAX)
  }

  /** `Integer.toString(n)` for a non-negative `n`: its decimal digits without leading zeros. */
  function Decimal(n: nat): (s: string)
    ensures s != [] && AllDigits(s)
  {
    if n < 10 then ['0' + n as char] else Decimal(n / 10) + ['0' + (n % 10) as char]
  }

  lemma {:induction false} DigitsOfDecimal(n: nat)
    ensures DigitsValue(Decimal(n)) == n
  {
    if n >= 10 {
      DigitsOfDecimal(n / 10);
      var s := Decimal(n);
      assert s[..|s| - 1] == Decimal(n / 10);
    }
  }

  /** Parsing what `Integer.toString` prints gives the number back, for every `n` in range. */
  lemma ParseDecimal(n: nat, lo: int, hi: int)
    requires lo <= n <= hi
    ensures ParseNumber(Decimal(n), lo, hi) == Some(n)
  {
    DigitsOfDecimal(n);
  }

  /** A single character parses iff it is a digit, and then to its value in [0, 9]. */
  lemma ParseOneChar(c: char)
    ensures IsDigit(c) ==> ParseInt([c]) == Some((c - '0') as int)
    ensures !IsDigit(c) ==> ParseInt([c]) == None
    ensures ParseInt([c]).Some? ==> 0 <= ParseInt([c]).value <= 9
  {
    if IsDigit(c) {
      assert DigitsValue([c]) == (c - '0') as nat by { assert [c][..0] == []; }
    }
  }
}
