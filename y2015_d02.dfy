/**
 * Advent of Code 2015, day 2, part 1 ("I Was Told There Would Be No Math"):
 * every input line describes a box as `LxWxH`; the elves need its surface
 * area plus the area of its smallest side as slack, and the answer is the
 * total over all lines.
 *
 * Java's `int` products and `long` total are modelled by unbounded integers.
 * A line that does not split into three parsable fields makes Java throw;
 * that is `None` here.
 */
module WrappingPaper {
  import opened Wrappers
  import opened JavaText

  datatype Box = Box(l: int, w: int, h: int)

  /**
   * Splits a line on 'x' and parses the first three fields as `int`s; fewer
   * than three fields or an unparsable one is the exception Java raises.
   */
  function ParseBox(line: string): (r: Option<Box>)
  {
    var raw := Split(line, 'x');
    if |raw| < 3 then None
    else
      var l, w, h := ParseInt(raw[0]), ParseInt(raw[1]), ParseInt(raw[2]);
      if l.Some? && w.Some? && h.Some? then Some(Box(l.value, w.value, h.value)) else None
  }

  /** What Java prints for a box parses back to that box, for every box within `int` range. */
  lemma ParseBoxOfDecimal(l: nat, w: nat, h: nat)
    requires l <= INT_MAX && w <= INT_MAX && h <= INT_MAX
    ensures ParseBox(Decimal(l) + "x" + Decimal(w) + "x" + Decimal(h)) == Some(Box(l, w, h))
  {
    var a, b, d := Decimal(l), Decimal(w), Decimal(h);
    assert 'x' !in a && 'x' !in b && 'x' !in d by {
      assert forall s: string :: AllDigits(s) ==> 'x' !in s;
    }
    SplitJoin3(a, b, d, 'x');
    assert a + "x" + b + "x" + d == a + ['x'] + b + ['x'] + d;
    ParseDecimal(l, INT_MIN, INT_MAX);
    ParseDecimal(w, INT_MIN, INT_MAX);
    ParseDecimal(h, INT_MIN, INT_MAX);
  }

  /** The area of the smallest side of the box. */
  function Slack(b: Box): (m: int)
    ensures m == b.l * b.w || m == b.w * b.h || m == b.h * b.l
    ensures m <= b.l * b.w && m <= b.w * b.h && m <= b.h * b.l
  {
    var x, y, z := b.l * b.w, b.w * b.h, b.h * b.l;
    if x <= y && x <= z then x else if y <= z then y else z
  }

  /** The wrapping paper one box needs: its surface area plus the slack. */
  function Paper(b: Box): int
  {
    2 * b.l * b.w + 2 * b.w * b.h + 2 * b.h * b.l + Slack(b)
  }

  /** The amount does not depend on which dimension is called length, width or height. */
  lemma PaperSymmetric(b: Box)
    ensures Paper(Box(b.w, b.h, b.l)) == Paper(b)
    ensures Paper(Box(b.w, b.l, b.h)) == Paper(b)
  {
    var r, t := Box(b.w, b.h, b.l), Box(b.w, b.l, b.h);
    assert b.l * b.w == b.w * b.l && b.w * b.h == b.h * b.w && b.h * b.l == b.l * b.h;
    assert Slack(r) == Slack(b);
    assert Slack(t) == Slack(b);
  }

  /** Paper is never less than the surface area, and for non-negative sides never negative. */
  lemma PaperBounds(b: Box)
    requires b.l >= 0 && b.w >= 0 && b.h >= 0
    ensures 2 * b.l * b.w + 2 * b.w * b.h + 2 * b.h * b.l <= Paper(b)
  {
  }

  /** Every line parsed on its own. */
  function ParseAll(lines: seq<string>): (boxes: seq<Option<Box>>)
    ensures |boxes| == |lines|
  {
    if lines == [] then [] else ParseAll(lines[..|lines| - 1]) + [ParseBox(lines[|lines| - 1])]
  }

  /** Parsing the lines one by one puts line k's box at position k. */
  lemma {:induction false} ParseAllAt(lines: seq<string>, k: nat)
    requires k < |lines|
    ensures ParseAll(lines)[k] == ParseBox(lines[k])
  {
    var n := |lines|;
    var init := lines[..n - 1];
    assert ParseAll(lines) == ParseAll(init) + [ParseBox(lines[n - 1])];
    if k < n - 1 {
      ParseAllAt(init, k);
      assert init[k] == lines[k];
    }
  }

  /** The sum of the paper of every box, or `None` as soon as one line is malformed. */
  function Total(boxes: seq<Option<Box>>): (r: Option<int>)
  {
    if boxes == [] then Some(0)
    else
      var t, b := Total(boxes[..|boxes| - 1]), boxes[|boxes| - 1];
      if t.Some? && b.Some? then Some(t.value + Paper(b.value)) else None
  }

  /** The answer for a whole input. */
  function TotalPaper(lines: seq<string>): Option<int>
  {
    Total(ParseAll(lines))
  }

  /** A total exists exactly when every line describes a box. */
  lemma {:induction false} TotalDefined(boxes: seq<Option<Box>>)
    ensures Total(boxes).Some? <==> forall k :: 0 <= k < |boxes| ==> boxes[k].Some?
  {
    if boxes != [] {
      var p := boxes[..|boxes| - 1];
      TotalDefined(p);
      assert forall k :: 0 <= k < |p| ==> p[k] == boxes[k];
    }
  }

  /** The input is accepted exactly when every line describes a box. */
  lemma TotalPaperDefined(lines: seq<string>)
    ensures TotalPaper(lines).Some? <==> forall k :: 0 <= k < |lines| ==> ParseBox(lines[k]).Some?
  {
    TotalDefined(ParseAll(lines));
    forall k | 0 <= k < |lines|
      ensures ParseAll(lines)[k] == ParseBox(lines[k])
    {
      ParseAllAt(lines, k);
    }
  }

  /** Boxes with non-negative sides never make the running total decrease. */
  lemma {:induction false} TotalMonotone(boxes: seq<Option<Box>>, k: nat)
    requires k <= |boxes| && Total(boxes).Some?
    requires forall i :: 0 <= i < |boxes| && boxes[i].Some? ==>
      boxes[i].value.l >= 0 && boxes[i].value.w >= 0 && boxes[i].value.h >= 0
    ensures Total(boxes[..k]).Some?
    ensures 0 <= Total(boxes[..k]).value <= Total(boxes).value
  {
    var n := |boxes|;
    if n > 0 {
      var p := boxes[..n - 1];
      PaperBounds(boxes[n - 1].value);
      if k == n {
        assert boxes[..k] == boxes;
        TotalMonotone(p, n - 1);
        assert p[..n - 1] == p;
      } else {
        TotalMonotone(p, k);
        assert p[..k] == boxes[..k];
      }
    }
  }

  /** Extending the boxes by one adds that box's paper to the total, or fails if the line was malformed. */
  lemma TotalStep(boxes: seq<Option<Box>>, i: nat)
    requires i < |boxes|
    ensures Total(boxes[..i + 1]) ==
      if Total(boxes[..i]).Some? && boxes[i].Some? then Some(Total(boxes[..i]).value + Paper(boxes[i].value))
      else None
  {
    assert boxes[..i + 1][..i] == boxes[..i];
  }

  /** Once a prefix has no total, neither has any longer sequence. */
  lemma {:induction false} TotalPrefixFails(boxes: seq<Option<Box>>, k: nat)
    requires k <= |boxes| && Total(boxes[..k]).None?
    ensures Total(boxes).None?
    decreases |boxes| - k
  {
    if k < |boxes| {
      TotalStep(boxes, k);
      TotalPrefixFails(boxes, k + 1);
    } else {
      assert boxes[..k] == boxes;
    }
  }

  predicate SortedThree(a: seq<int>)
  {
    |a| == 3 && a[0] <= a[1] <= a[2]
  }

  /** `s` holds `x`, `y` and `z` in some order. */
  predicate Arrangement(s: seq<int>, x: int, y: int, z: int)
  {
    || s == [x, y, z] || s == [x, z, y] || s == [y, x, z]
    || s == [y, z, x] || s == [z, x, y] || s == [z, y, x]
  }

  /** `Arrays.sort` on the three-element `areas` array: ascending, and a rearrangement of the old contents. */
  method SortThree(a: array<int>)
    requires a.Length == 3
    modifies a
    ensures SortedThree(a[..])
    ensures Arrangement(a[..], old(a[0]), old(a[1]), old(a[2]))
  {
    var x, y, z := a[0], a[1], a[2];
    if x > y {
      x, y := y, x;
    }
    if y > z {
      y, z := z, y;
    }
    if x > y {
      x, y := y, x;
    }
    a[0], a[1], a[2] := x, y, z;
    assert a[..] == [x, y, z];
  }

  /** Once the three side areas are sorted, the first one is the slack. */
  lemma SlackIsFirst(a: seq<int>, b: Box)
    requires SortedThree(a)
    requires Arrangement(a, b.l * b.w, b.w * b.h, b.h * b.l)
    ensures a[0] == Slack(b)
  {
  }

  /**
   * The body of the loop for one parsed box: store its dimensions, compute the
   * three side areas, sort them in place and add the smallest to the surface area.
   */
  method BoxPaper(b: Box, dimensions: array<int>, areas: array<int>) returns (amount: int)
    requires dimensions.Length == 3 && areas.Length == 3 && dimensions != areas
    modifies dimensions, areas
    ensures amount == Paper(b)
    ensures dimensions[..] == [b.l, b.w, b.h]
    ensures SortedThree(areas[..]) && Arrangement(areas[..], b.l * b.w, b.w * b.h, b.h * b.l)
  {
    dimensions[0], dimensions[1], dimensions[2] := b.l, b.w, b.h;
    areas[0] := dimensions[0] * dimensions[1];
    areas[1] := dimensions[1] * dimensions[2];
    areas[2] := dimensions[2] * dimensions[0];
    SortThree(areas);
    SlackIsFirst(areas[..], b);
    amount := 2 * dimensions[0] * dimensions[1]
      + 2 * dimensions[1] * dimensions[2]
      + 2 * dimensions[2] * dimensions[0]
      + areas[0];
    assert dimensions[..] == [b.l, b.w, b.h];
  }

  /** One pass of the loop body for a parsed box: the running total grows by its paper. */
  method AddBox(b: Box, sum: int, dimensions: array<int>, areas: array<int>) returns (next: int)
    requires dimensions.Length == 3 && areas.Length == 3 && dimensions != areas
    modifies dimensions, areas
    ensures next == sum + Paper(b)
  {
    var amount := BoxPaper(b, dimensions, areas);
    next := sum + amount;
  }

  /** A box at position `i` adds its paper to the total of the boxes before it. */
  lemma LineAdds(boxes: seq<Option<Box>>, i: nat, sum: int, b: Box)
    requires i < |boxes| && Total(boxes[..i]) == Some(sum) && boxes[i] == Some(b)
    ensures Total(boxes[..i + 1]) == Some(sum + Paper(b))
  {
    TotalStep(boxes, i);
  }

  /** A malformed line leaves the whole input without a total. */
  lemma LineFails(input: seq<string>, i: nat)
    requires i < |input| && ParseBox(input[i]).None?
    ensures TotalPaper(input).None?
  {
    ParseAllAt(input, i);
    TotalStep(ParseAll(input), i);
    TotalPrefixFails(ParseAll(input), i + 1);
  }

  /** Appending the total of the next prefix keeps the trace in step with the prefixes. */
  lemma TraceExtend(boxes: seq<Option<Box>>, trace: seq<int>, i: nat, v: int)
    requires |trace| == i < |boxes|
    requires forall k :: 0 <= k < i ==> Total(boxes[..k + 1]) == Some(trace[k])
    requires Total(boxes[..i + 1]) == Some(v)
    ensures forall k :: 0 <= k < |trace| + 1 ==> Total(boxes[..k + 1]) == Some((trace + [v])[k])
  {
  }

  /**
   * y2015_d02p1.main: for each line, parse the dimensions, sort the side areas
   * in place, and add the paper to the running total; `trace` holds the total
   * printed after each line.  A malformed line stops the run (`None`).
   */
  method TotalWrappingPaper(input: seq<string>) returns (total: Option<int>, trace: seq<int>)
    ensures total == TotalPaper(input)
    ensures total.Some? ==> |trace| == |input|
    ensures total.None? ==> |trace| < |input| && ParseBox(input[|trace|]).None?
    ensures forall k :: 0 <= k < |trace| ==> Total(ParseAll(input)[..k + 1]) == Some(trace[k])
  {
    ghost var boxes := ParseAll(input);
    var dimensions := new int[3];
    var areas := new int[3];
    var sum := 0;
    trace := [];
    var i := 0;
    while i < |input|
      invariant 0 <= i <= |input|
      invariant Total(boxes[..i]) == Some(sum)
      invariant |trace| == i
      invariant forall k :: 0 <= k < i ==> Total(boxes[..k + 1]) == Some(trace[k])
    {
      var box := ParseBox(input[i]);
      if box.None? {
        LineFails(input, i);
        return None, trace;
      }
      ParseAllAt(input, i);
      LineAdds(boxes, i, sum, box.value);
      sum := AddBox(box.value, sum, dimensions, areas);
      TraceExtend(boxes, trace, i, sum);
      trace := trace + [sum];
      i := i + 1;
    }
    assert boxes[..i] == boxes;
    total := Some(sum);
  }
}
