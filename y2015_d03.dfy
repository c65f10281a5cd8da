/**
 * Advent of Code 2015, day 3, part 1 ("Perfectly Spherical Houses in a
 * Vacuum"): Santa starts at (0, 0), delivers a present there, then follows the
 * arrows of `input[0]`, delivering one present at every house he moves to.
 * The answer is the number of distinct houses that received a present.
 *
 * The source keeps a list of `House` objects, each with its own coordinate
 * array and a present counter that is incremented in place.  The list itself
 * is local to the run and only grows, so it is modelled as a sequence of
 * `House` references that the operations reassign; the objects and arrays are
 * real heap objects.  Every state of that list is related to a value
 * (`Holds`) and the value-level walk (`Deliveries`) carries the proofs.
 */
module Deliveries {
  import opened Wrappers

  datatype Pos = Pos(x: int, y: int)

  const Origin := Pos(0, 0)

  /** A house as a value: where it is and how many presents it received. */
  datatype Entry = Entry(at: Pos, presents: int)

  // ---------------------------------------------------------------------------
  // The walk as values

  /** The move an instruction character makes, or `None` for a character the switch ignores. */
  function Move(p: Pos, c: char): (r: Option<Pos>)
    ensures r.Some? <==> c in {'>', '<', '^', 'v'}
    ensures r.Some? ==> (if c == '>' || c == '<' then r.value.y == p.y else r.value.x == p.x)
  {
    match c
    case '>' => Some(Pos(p.x + 1, p.y))
    case '<' => Some(Pos(p.x - 1, p.y))
    case '^' => Some(Pos(p.x, p.y + 1))
    case 'v' => Some(Pos(p.x, p.y - 1))
    case _ => None
  }

  /** Where Santa stands after following `s` from the origin. */
  function Position(s: string): Pos
  {
    if s == [] then Origin
    else
      var p := Position(s[..|s| - 1]);
      var m := Move(p, s[|s| - 1]);
      if m.Some? then m.value else p
  }

  /** The index of the first entry at `p`, or -1 when there is none. */
  function FirstAt(es: seq<Entry>, p: Pos): (i: int)
    ensures -1 <= i < |es|
    ensures i == -1 <==> forall k :: 0 <= k < |es| ==> es[k].at != p
    ensures i >= 0 ==> es[i].at == p && forall k :: 0 <= k < i ==> es[k].at != p
  {
    if es == [] then -1
    else if es[0].at == p then 0
    else
      var j := FirstAt(es[1..], p);
      if j == -1 then -1 else j + 1
  }

  /**
   * One delivery at `p` on the list of houses: a new house with one present is
   * appended when none is at `p`, otherwise the first house at `p` gets one more.
   */
  function Deliver(es: seq<Entry>, p: Pos): seq<Entry>
  {
    var i := FirstAt(es, p);
    if i == -1 then es + [Entry(p, 1)] else es[i := Entry(p, es[i].presents + 1)]
  }

  /** The list of houses after following `s`: the origin first, then one delivery per move. */
  function Deliveries(s: string): seq<Entry>
  {
    if s == [] then [Entry(Origin, 1)]
    else
      var m := Move(Position(s[..|s| - 1]), s[|s| - 1]);
      var es := Deliveries(s[..|s| - 1]);
      if m.Some? then Deliver(es, m.value) else es
  }

  // ---------------------------------------------------------------------------
  // Properties of the walk

  /** No two entries share a position. */
  predicate UniqueAt(es: seq<Entry>)
  {
    forall i, j :: 0 <= i < j < |es| ==> es[i].at != es[j].at
  }

  /** The positions of the entries. */
  function Ats(es: seq<Entry>): set<Pos>
  {
    if es == [] then {} else Ats(es[..|es| - 1]) + {es[|es| - 1].at}
  }

  lemma {:induction false} AtsMembers(es: seq<Entry>)
    ensures forall p :: p in Ats(es) <==> exists k :: 0 <= k < |es| && es[k].at == p
  {
    if es != [] {
      var n := |es|;
      AtsMembers(es[..n - 1]);
      assert forall k :: 0 <= k < n - 1 ==> es[..n - 1][k] == es[k];
    }
  }

  /** With no position twice, there are as many positions as entries. */
  lemma {:induction false} AtsCount(es: seq<Entry>)
    requires UniqueAt(es)
    ensures |Ats(es)| == |es|
  {
    if es != [] {
      var n := |es|;
      var p := es[..n - 1];
      AtsCount(p);
      AtsMembers(p);
      assert forall k :: 0 <= k < |p| ==> p[k].at != es[n - 1].at;
    }
  }

  /** A delivery keeps positions unique and adds exactly its own position to the visited set. */
  lemma DeliverFacts(es: seq<Entry>, p: Pos)
    requires UniqueAt(es)
    ensures UniqueAt(Deliver(es, p))
    ensures Ats(Deliver(es, p)) == Ats(es) + {p}
  {
    var r := Deliver(es, p);
    AtsMembers(es);
    AtsMembers(r);
    if FirstAt(es, p) == -1 {
      assert r[..|es|] == es;
    } else {
      assert forall k :: 0 <= k < |es| ==> r[k].at == es[k].at;
    }
  }

  /** The positions visited by the walk: the origin and every position a move leads to. */
  function Visited(s: string): set<Pos>
  {
    if s == [] then {Origin}
    else
      var m := Move(Position(s[..|s| - 1]), s[|s| - 1]);
      if m.Some? then Visited(s[..|s| - 1]) + {m.value} else Visited(s[..|s| - 1])
  }

  /**
   * The list never holds two houses at the same position and holds one house
   * per visited position, so the printed count is the number of distinct
   * houses visited, the origin included.
   */
  lemma {:induction false} DeliveriesVisited(s: string)
    ensures UniqueAt(Deliveries(s))
    ensures Ats(Deliveries(s)) == Visited(s)
    ensures |Deliveries(s)| == |Visited(s)|
  {
    if s == [] {
      assert Ats([Entry(Origin, 1)]) == {Origin} by {
        assert [Entry(Origin, 1)][..0] == [];
      }
    } else {
      var p := s[..|s| - 1];
      DeliveriesVisited(p);
      var m := Move(Position(p), s[|s| - 1]);
      if m.Some? {
        DeliverFacts(Deliveries(p), m.value);
      }
    }
    AtsCount(Deliveries(s));
  }

  /** The number of presents recorded in the list. */
  function Presents(es: seq<Entry>): int
  {
    if es == [] then 0 else Presents(es[..|es| - 1]) + es[|es| - 1].presents
  }

  lemma {:induction false} PresentsUpdate(es: seq<Entry>, i: nat, e: Entry)
    requires i < |es|
    ensures Presents(es[i := e]) == Presents(es) - es[i].presents + e.presents
  {
    var n := |es|;
    if i < n - 1 {
      PresentsUpdate(es[..n - 1], i, e);
      assert es[i := e][..n - 1] == es[..n - 1][i := e];
    } else {
      assert es[i := e][..n - 1] == es[..n - 1];
    }
  }

  /** The number of characters of `s` that move Santa. */
  function Moves(s: string): nat
  {
    if s == [] then 0 else Moves(s[..|s| - 1]) + (if s[|s| - 1] in {'>', '<', '^', 'v'} then 1 else 0)
  }

  /** One present at the origin plus one per move: no delivery is lost or counted twice. */
  lemma {:induction false} DeliveriesPresents(s: string)
    ensures Presents(Deliveries(s)) == 1 + Moves(s)
    ensures forall k :: 0 <= k < |Deliveries(s)| ==> Deliveries(s)[k].presents >= 1
  {
    if s == [] {
      assert [Entry(Origin, 1)][..0] == [];
    } else {
      var p := s[..|s| - 1];
      DeliveriesPresents(p);
      var es := Deliveries(p);
      var m := Move(Position(p), s[|s| - 1]);
      if m.Some? {
        var i := FirstAt(es, m.value);
        if i == -1 {
          assert (es + [Entry(m.value, 1)])[..|es|] == es;
        } else {
          PresentsUpdate(es, i, Entry(m.value, es[i].presents + 1));
        }
      }
    }
  }

  // ---------------------------------------------------------------------------
  // The houses on the heap

  class House {
    var coords: array<int>
    var receivedPresents: int

    /** `new House()`: a fresh coordinate array holding (0, 0), and one present. */
    constructor ()
      ensures fresh(coords) && coords.Length == 2 && coords[0] == 0 && coords[1] == 0
      ensures receivedPresents == 1
    {
      coords := new int[2](_ => 0);
      receivedPresents := 1;
    }
  }

  /** `a.clone()` for an `int[]`: a fresh array with the same contents. */
  method Clone(a: array<int>) returns (c: array<int>)
    ensures fresh(c) && c[..] == a[..]
  {
    c := new int[a.Length];
    forall i | 0 <= i < a.Length {
      c[i] := a[i];
    }
  }

  /**
   * The shape the list keeps: every house owns a two-element coordinate array
   * of its own, distinct from `curr` (the walker's array), and no house or
   * array appears twice.
   */
  ghost predicate Stored(houses: seq<House>, curr: array<int>)
    reads houses
  {
    && (forall i :: 0 <= i < |houses| ==> houses[i].coords.Length == 2 && houses[i].coords != curr)
    && (forall i, j :: 0 <= i < j < |houses| ==> houses[i] != houses[j] && houses[i].coords != houses[j].coords)
  }

  ghost function EntryOf(h: House): Entry
    requires h.coords.Length == 2
    reads h, h.coords
  {
    Entry(Pos(h.coords[0], h.coords[1]), h.receivedPresents)
  }

  /** The list of houses, read from the heap, is the list of entries `es`. */
  ghost predicate Holds(houses: seq<House>, es: seq<Entry>)
    reads houses, set i | 0 <= i < |houses| :: houses[i].coords
  {
    && |houses| == |es|
    && (forall i :: 0 <= i < |houses| ==> houses[i].coords.Length == 2)
    && (forall i :: 0 <= i < |houses| ==> EntryOf(houses[i]) == es[i])
  }

  /**
   * The stream in y2015_d03p1.processDelivery: the houses whose coordinate
   * array equals `coords` element by element (`Arrays.equals`), in list order.
   * Its first element is the first house at that position, and it is empty
   * exactly when no house is there.
   */
  method Search(houseList: seq<House>, coords: array<int>, ghost es: seq<Entry>) returns (houseSearch: seq<House>)
    requires coords.Length == 2 && Holds(houseList, es)
    ensures forall h :: h in houseSearch ==> h in houseList && h.coords[..] == coords[..]
    ensures var i := FirstAt(es, Pos(coords[0], coords[1]));
      && (houseSearch == [] <==> i == -1)
      && (i >= 0 ==> houseSearch[0] == houseList[i])
  {
    ghost var p := Pos(coords[0], coords[1]);
    houseSearch := [];
    ghost var first := -1;
    var i := 0;
    while i < |houseList|
      invariant 0 <= i <= |houseList|
      invariant forall h :: h in houseSearch ==> h in houseList && h.coords[..] == coords[..]
      invariant houseSearch == [] <==> forall k :: 0 <= k < i ==> es[k].at != p
      invariant houseSearch != [] ==> 0 <= first < i && houseSearch[0] == houseList[first]
      invariant houseSearch != [] ==> es[first].at == p && forall k :: 0 <= k < first ==> es[k].at != p
    {
      var h := houseList[i];
      if h.coords[..] == coords[..] {
        if houseSearch == [] {
          first := i;
        }
        houseSearch := houseSearch + [h];
      } else {
        assert h.coords[0] != coords[0] || h.coords[1] != coords[1];
      }
      i := i + 1;
    }
    if houseSearch != [] {
      assert FirstAt(es, p) == first;
    }
  }

  /**
   * The first branch of y2015_d03p1.processDelivery: append a new house and
   * give it a copy of `coords`, so that later moves of the walker's array do
   * not move the house.
   */
  method AddHouse(houseList: seq<House>, coords: array<int>, ghost es: seq<Entry>) returns (result: seq<House>)
    requires coords.Length == 2 && Stored(houseList, coords) && Holds(houseList, es)
    ensures Stored(result, coords)
    ensures Holds(result, es + [Entry(Pos(coords[0], coords[1]), 1)])
    ensures |result| == |houseList| + 1 && result[..|houseList|] == houseList
    ensures fresh(result[|houseList|])
  {
    var h := new House();
    result := houseList + [h];
    var copy := Clone(coords);
    result[|result| - 1].coords := copy;
  }

  /**
   * y2015_d03p1.processDelivery: with no house at `coords`, append a new house
   * holding a copy of `coords`; otherwise increment the present count of the
   * first house found there.  The list is returned rather than mutated through
   * a shared reference; `es` is the list as a value before the call.
   */
  method ProcessDelivery(houseList: seq<House>, coords: array<int>, ghost es: seq<Entry>) returns (result: seq<House>)
    requires coords.Length == 2 && Stored(houseList, coords) && Holds(houseList, es)
    modifies houseList
    ensures Stored(result, coords)
    ensures Holds(result, Deliver(es, Pos(coords[0], coords[1])))
    ensures |houseList| <= |result| <= |houseList| + 1 && result[..|houseList|] == houseList
    ensures forall i :: |houseList| <= i < |result| ==> fresh(result[i])
  {
    ghost var p := Pos(coords[0], coords[1]);
    var houseSearch := Search(houseList, coords, es);
    if houseSearch == [] {
      result := AddHouse(houseList, coords, es);
    } else {
      ghost var i := FirstAt(es, p);
      Increment(houseList, houseSearch[0], coords, i, es);
      result := houseList;
      assert Deliver(es, p) == es[i := Entry(p, es[i].presents + 1)];
    }
  }

  /**
   * The second branch of y2015_d03p1.processDelivery: one more present for
   * the house `h` found at position `i` of the list; no other house changes.
   */
  method Increment(houseList: seq<House>, h: House, coords: array<int>, ghost i: nat, ghost es: seq<Entry>)
    requires i < |houseList| && houseList[i] == h
    requires coords.Length == 2 && Stored(houseList, coords) && Holds(houseList, es)
    modifies h
    ensures Stored(houseList, coords)
    ensures Holds(houseList, es[i := Entry(es[i].at, es[i].presents + 1)])
  {
    h.receivedPresents := h.receivedPresents + 1;
    assert forall k :: 0 <= k < |houseList| && k != i ==> houseList[k] != h;
  }

  /** One more character moves Santa by `Move` and, when it is an arrow, delivers there. */
  lemma WalkStep(s: string, k: nat)
    requires k < |s|
    ensures var m := Move(Position(s[..k]), s[k]);
      && Position(s[..k + 1]) == (if m.Some? then m.value else Position(s[..k]))
      && Deliveries(s[..k + 1]) == (if m.Some? then Deliver(Deliveries(s[..k]), m.value) else Deliveries(s[..k]))
  {
    assert s[..k + 1][..k] == s[..k];
  }

  /** The positions printed after each of the first `n` characters. */
  function Trace(s: string, n: nat): seq<Pos>
    requires n <= |s|
  {
    if n == 0 then [] else Trace(s, n - 1) + [Position(s[..n])]
  }

  lemma {:induction false} TraceAt(s: string, n: nat)
    requires n <= |s|
    ensures |Trace(s, n)| == n
    ensures forall k :: 0 <= k < n ==> Trace(s, n)[k] == Position(s[..k + 1])
  {
    if n > 0 {
      TraceAt(s, n - 1);
    }
  }

  /**
   * The body of the loop in y2015_d03p1.main for one character: an arrow
   * moves the walker's array in place and triggers a delivery there; any
   * other character changes nothing.
   */
  method Step(houses: seq<House>, currCoords: array<int>, c: char, ghost es: seq<Entry>) returns (result: seq<House>)
    requires currCoords.Length == 2 && Stored(houses, currCoords) && Holds(houses, es)
    modifies houses, currCoords
    ensures Stored(result, currCoords)
    ensures var m := Move(old(Pos(currCoords[0], currCoords[1])), c);
      && (m.Some? ==> Pos(currCoords[0], currCoords[1]) == m.value && Holds(result, Deliver(es, m.value)))
      && (m.None? ==> Pos(currCoords[0], currCoords[1]) == old(Pos(currCoords[0], currCoords[1])) && Holds(result, es))
    ensures forall k :: 0 <= k < |result| ==> k < |houses| || fresh(result[k])
    ensures |houses| <= |result| && result[..|houses|] == houses
  {
    result := houses;
    var moved := true;
    match c {
      case '>' => currCoords[0] := currCoords[0] + 1;
      case '<' => currCoords[0] := currCoords[0] - 1;
      case '^' => currCoords[1] := currCoords[1] + 1;
      case 'v' => currCoords[1] := currCoords[1] - 1;
      case _ => moved := false;
    }
    if moved {
      assert Holds(houses, es);
      result := ProcessDelivery(houses, currCoords, es);
    }
  }

  /**
   * y2015_d03p1.main: walk `input[0]` moving the shared `currCoords` array in
   * place and delivering after every move.  `trace` holds the coordinates
   * printed after each character; `count` is the number of houses printed at
   * the end (`None` when there is no input line).
   */
  method CountHouses(input: seq<string>) returns (count: Option<int>, trace: seq<Pos>)
    ensures count.None? <==> input == []
    ensures input == [] ==> trace == []
    ensures input != [] ==> count == Some(|Deliveries(input[0])|)
    ensures input != [] ==> |trace| == |input[0]|
    ensures input != [] ==> forall k :: 0 <= k < |trace| ==> trace[k] == Position(input[0][..k + 1])
  {
    var currCoords := new int[2](_ => 0);
    var start := new House();
    var houses := [start];
    houses[0].coords := Clone(currCoords);
    if input == [] {
      return None, [];
    }
    var s := input[0];
    trace := [];
    var step := 0;
    while step < |s|
      invariant 0 <= step <= |s|
      invariant currCoords.Length == 2
      invariant Stored(houses, currCoords)
      invariant forall k :: 0 <= k < |houses| ==> fresh(houses[k])
      invariant Pos(currCoords[0], currCoords[1]) == Position(s[..step])
      invariant Holds(houses, Deliveries(s[..step]))
      invariant trace == Trace(s, step)
    {
      WalkStep(s, step);
      houses := Step(houses, currCoords, s[step], Deliveries(s[..step]));
      trace := trace + [Pos(currCoords[0], currCoords[1])];
      step := step + 1;
    }
    TraceAt(s, step);
    assert s[..step] == s;
    count := Some(|houses|);
  }
}
