/**
 * Day 11, part two: the same rounds as part one, but a seat looks along
 * each of the eight directions past the floor to the first seat it can
 * see, and an occupied seat empties when five or more of the seats it sees
 * are occupied. Positions are signed here: a walk may step off the grid on
 * either side, and `get_position` answers nothing there.
 *
 * The places, the reading of a layout, the rule, the round and the
 * changeset are part one's (`Day11a`); what is new is the signed position
 * and the walk along a direction.
 */
module Day11b {
  import opened Common
  import Day11a

  type GridPlace = Day11a.GridPlace

  /** `Point` of part two: signed column and row. */
  datatype Point = Point(x: int, y: int)

  /** `Point::is_negative`: either coordinate is below zero. */
  predicate IsNegative(p: Point) {
    p.x < 0 || p.y < 0
  }

  /** `Add for &Point`: coordinate-wise sum. */
  function Add(p: Point, q: Point): (r: Point)
    ensures r.x - p.x == q.x && r.y - p.y == q.y
  {
    Point(p.x + q.x, p.y + q.y)
  }

  /** The signed position of a position of part one. */
  function Signed(p: Day11a.Point): Point {
    Point(p.x, p.y)
  }

  /**
   * `get_position` of part two: nothing for a negative coordinate,
   * otherwise what part one's `get_position` finds there.
   */
  function Place(ll: nat, g: seq<GridPlace>, p: Point): (r: Option<GridPlace>)
    ensures r.Some? <==> 0 <= p.x < ll && 0 <= p.y && p.y * ll + p.x < |g|
    ensures r.Some? ==> r.value == g[p.y * ll + p.x] && r.value in g
  {
    if IsNegative(p) then None else Day11a.Place(ll, g, p.x, p.y)
  }

  /* ---------------------------------------------------------------- */
  /* Looking along a direction                                         */
  /* ---------------------------------------------------------------- */

  /** One of the eight directions: a step of at most one in each coordinate, not both zero. */
  predicate IsDirection(d: (int, int)) {
    -1 <= d.0 <= 1 && -1 <= d.1 <= 1 && d != (0, 0)
  }

  /** The directions `get_visible_seats` looks in, in its order. */
  function Directions(): (r: seq<(int, int)>)
    ensures |r| == 8
  {
    [(-1, -1), (0, -1), (1, -1), (-1, 0), (1, 0), (-1, 1), (0, 1), (1, 1)]
  }

  predicate AllDirections(ds: seq<(int, int)>) {
    forall k :: 0 <= k < |ds| ==> IsDirection(ds[k])
  }

  lemma DirectionsAreDirections()
    ensures AllDirections(Directions())
  {
  }

  /**
   * How many more steps along `d` can stay on the grid: the distance to
   * the edge the direction walks towards (columns for a sideways step,
   * rows otherwise).
   */
  function Reach(ll: nat, size: nat, p: Point, d: (int, int)): nat {
    if d.0 > 0 then (if p.x < ll then ll - p.x else 0)
    else if d.0 < 0 then (if p.x >= 0 then p.x + 1 else 0)
    else if d.1 > 0 then (if p.y < size then size - p.y else 0)
    else (if p.y >= 0 then p.y + 1 else 0)
  }

  /** A row of a place is below the number of places. */
  lemma RowBelowSize(ll: nat, size: nat, p: Point)
    requires 0 <= p.x < ll && 0 <= p.y && p.y * ll + p.x < size
    ensures p.y < size
  {
    assert p.y * ll >= p.y;
  }

  /** A step that lands on a place brings the walk closer to its edge. */
  lemma ReachDecreases(ll: nat, g: seq<GridPlace>, p: Point, d: (int, int))
    requires IsDirection(d) && Place(ll, g, Add(p, Point(d.0, d.1))).Some?
    ensures Reach(ll, |g|, Add(p, Point(d.0, d.1)), d) < Reach(ll, |g|, p, d)
  {
    RowBelowSize(ll, |g|, Add(p, Point(d.0, d.1)));
  }

  /**
   * The inner loop of `get_visible_seats`: step along `d` from `p` past
   * the floor; the first place that is not floor is seen, and stepping
   * off the grid sees nothing.
   */
  function Sight(ll: nat, g: seq<GridPlace>, p: Point, d: (int, int)): (r: Option<GridPlace>)
    requires IsDirection(d)
    ensures r != Some(Day11a.Floor)
    ensures r.Some? ==> r.value in g
    decreases Reach(ll, |g|, p, d)
  {
    var q := Add(p, Point(d.0, d.1));
    match Place(ll, g, q)
    case Some(v) =>
      if v == Day11a.Floor then
        ReachDecreases(ll, g, p, d);
        Sight(ll, g, q, d)
      else Some(v)
    case None => None
  }

  /** The position `k` steps along `d` from `p`. */
  function Steps(p: Point, d: (int, int), k: nat): Point {
    if k == 0 then p else Add(Steps(p, d, k - 1), Point(d.0, d.1))
  }

  lemma {:induction false} StepsShift(p: Point, d: (int, int), k: nat)
    ensures Steps(Add(p, Point(d.0, d.1)), d, k) == Steps(p, d, k + 1)
  {
    if k > 0 {
      StepsShift(p, d, k - 1);
    }
  }

  /** Step `k` along `d` is the first that is not floor: every step before it is floor. */
  predicate FirstStop(ll: nat, g: seq<GridPlace>, p: Point, d: (int, int), k: nat) {
    k >= 1 && Place(ll, g, Steps(p, d, k)) != Some(Day11a.Floor)
    && forall j :: 1 <= j < k ==> Place(ll, g, Steps(p, d, j)) == Some(Day11a.Floor)
  }

  /** A floor step in front of a walk moves its first stop one step further. */
  lemma FirstStopShift(ll: nat, g: seq<GridPlace>, p: Point, d: (int, int), k: nat)
    requires Place(ll, g, Add(p, Point(d.0, d.1))) == Some(Day11a.Floor)
    ensures FirstStop(ll, g, Add(p, Point(d.0, d.1)), d, k) <==> FirstStop(ll, g, p, d, k + 1)
  {
    var q := Add(p, Point(d.0, d.1));
    assert Steps(p, d, 1) == q;
    StepsShift(p, d, k);
    forall j | 1 <= j < k
      ensures Steps(q, d, j) == Steps(p, d, j + 1)
    {
      StepsShift(p, d, j);
    }
    if FirstStop(ll, g, q, d, k) {
      forall j | 1 <= j < k + 1
        ensures Place(ll, g, Steps(p, d, j)) == Some(Day11a.Floor)
      {
        if j > 1 {
          assert Steps(q, d, j - 1) == Steps(p, d, j);
        }
      }
    }
    if FirstStop(ll, g, p, d, k + 1) {
      forall j | 1 <= j < k
        ensures Place(ll, g, Steps(q, d, j)) == Some(Day11a.Floor)
      {
        assert Steps(q, d, j) == Steps(p, d, j + 1);
      }
    }
  }

  /**
   * What a seat sees along a direction is what `get_position` answers at
   * the first step that is not floor.
   */
  lemma {:induction false} SightFirst(ll: nat, g: seq<GridPlace>, p: Point, d: (int, int), k: nat)
    requires IsDirection(d) && FirstStop(ll, g, p, d, k)
    ensures Sight(ll, g, p, d) == Place(ll, g, Steps(p, d, k))
    decreases k
  {
    var q := Add(p, Point(d.0, d.1));
    assert Steps(p, d, 1) == q;
    if k > 1 {
      assert Place(ll, g, q) == Some(Day11a.Floor);
      FirstStopShift(ll, g, p, d, k - 1);
      StepsShift(p, d, k - 1);
      SightFirst(ll, g, q, d, k - 1);
    }
  }

  /** The walk always stops: some step is the first that is not floor. */
  lemma {:induction false} SightStops(ll: nat, g: seq<GridPlace>, p: Point, d: (int, int))
    requires IsDirection(d)
    ensures exists k :: FirstStop(ll, g, p, d, k)
    decreases Reach(ll, |g|, p, d)
  {
    var q := Add(p, Point(d.0, d.1));
    assert Steps(p, d, 1) == q;
    if Place(ll, g, q) == Some(Day11a.Floor) {
      ReachDecreases(ll, g, p, d);
      SightStops(ll, g, q, d);
      var k :| FirstStop(ll, g, q, d, k);
      FirstStopShift(ll, g, p, d, k);
    } else {
      assert FirstStop(ll, g, p, d, 1);
    }
  }

  /** The places seen along the given directions, in their order. */
  function SightsFrom(ll: nat, g: seq<GridPlace>, p: Point, ds: seq<(int, int)>): (r: seq<GridPlace>)
    requires AllDirections(ds)
    ensures |r| <= |ds|
    ensures Day11a.Floor !in r
    ensures forall k :: 0 <= k < |r| ==> r[k] in g
  {
    if ds == [] then []
    else
      var seen := SightsFrom(ll, g, p, ds[..|ds| - 1]);
      match Sight(ll, g, p, ds[|ds| - 1])
      case Some(v) => seen + [v]
      case None => seen
  }

  /** One more direction adds what is seen along it, if anything. */
  lemma SightsStep(ll: nat, g: seq<GridPlace>, p: Point, ds: seq<(int, int)>, k: nat)
    requires AllDirections(ds) && k < |ds|
    ensures var s := Sight(ll, g, p, ds[k]);
      SightsFrom(ll, g, p, ds[..k + 1]) == SightsFrom(ll, g, p, ds[..k]) + if s.Some? then [s.value] else []
  {
    assert ds[..k + 1][..k] == ds[..k];
  }

  /** What `get_visible_seats` returns: the first seat seen along each direction that has one. */
  function VisiblePlaces(ll: nat, g: seq<GridPlace>, p: Point): seq<GridPlace> {
    DirectionsAreDirections();
    SightsFrom(ll, g, p, Directions())
  }

  /** At most eight seats are seen, and none of them is floor. */
  lemma VisibleBounds(ll: nat, g: seq<GridPlace>, p: Point)
    ensures |VisiblePlaces(ll, g, p)| <= 8 && Day11a.Floor !in VisiblePlaces(ll, g, p)
  {
  }

  /* ---------------------------------------------------------------- */
  /* Rounds                                                            */
  /* ---------------------------------------------------------------- */

  /** For each place, the number of occupied seats it sees. */
  function VisibleCounts(ll: nat, g: seq<GridPlace>): (r: seq<nat>)
    ensures |r| == |g|
  {
    seq(|g|, i requires 0 <= i < |g| =>
      if ll == 0 then 0 else Count(VisiblePlaces(ll, g, Signed(Day11a.PositionOf(ll, i))), Day11a.OccupiedSeat))
  }

  /** One round of part two: five occupied seats in sight empty a seat. */
  function Step(ll: nat, g: seq<GridPlace>): (r: seq<GridPlace>)
    ensures |r| == |g|
  {
    Day11a.Round(ll, g, VisibleCounts(ll, g), 5)
  }

  /** The layout after `n` rounds. */
  function Rounds(ll: nat, g: seq<GridPlace>, n: nat): (r: seq<GridPlace>)
    ensures |r| == |g|
  {
    if n == 0 then g else Step(ll, Rounds(ll, g, n - 1))
  }

  /** The first round from a layout without occupied seats fills every seat and keeps the floor. */
  lemma FirstRoundFillsSeats(ll: nat, g: seq<GridPlace>)
    requires ll > 0 && Day11a.OccupiedSeat !in g
    ensures forall i :: 0 <= i < |g| ==> Step(ll, g)[i] == if g[i] == Day11a.Floor then Day11a.Floor else Day11a.OccupiedSeat
  {
    forall i | 0 <= i < |g|
      ensures Step(ll, g)[i] == if g[i] == Day11a.Floor then Day11a.Floor else Day11a.OccupiedSeat
    {
      var seen := VisiblePlaces(ll, g, Signed(Day11a.PositionOf(ll, i)));
      assert Day11a.OccupiedSeat !in seen;
      assert VisibleCounts(ll, g)[i] == 0;
    }
  }

  /** The changes with signed positions, as part two collects them. */
  function SignedChanges(cs: seq<(Day11a.Point, GridPlace)>): (r: seq<(Point, GridPlace)>)
    ensures |r| == |cs|
  {
    seq(|cs|, k requires 0 <= k < |cs| => (Signed(cs[k].0), cs[k].1))
  }

  lemma SignedChangesAppend(a: seq<(Day11a.Point, GridPlace)>, b: seq<(Day11a.Point, GridPlace)>)
    ensures SignedChanges(a + b) == SignedChanges(a) + SignedChanges(b)
  {
  }

  /** The changes, with signed positions, of the first `n` places of a round of part two. */
  function ChangesSoFar(ll: nat, g: seq<GridPlace>, n: nat): seq<(Point, GridPlace)>
    requires n <= |g|
  {
    if ll == 0 then [] else SignedChanges(Day11a.ChangesUpTo(ll, g, VisibleCounts(ll, g), 5, n))
  }

  /** Once every place is visited, or when the line length is 0, the changes so far are the round's changes. */
  lemma ChangesSoFarAll(ll: nat, g: seq<GridPlace>, n: nat)
    requires n <= |g| && (ll == 0 || n == |g|)
    ensures ChangesSoFar(ll, g, n) == SignedChanges(Day11a.Changes(ll, g, VisibleCounts(ll, g), 5))
  {
  }

  /** The place at index `i` adds its change, decided from the seats it sees. */
  lemma VisibleChangeStep(ll: nat, g: seq<GridPlace>, i: nat, pos: Point, place: GridPlace, newPlace: Option<GridPlace>)
    requires ll > 0 && i < |g| && pos == Signed(Day11a.PositionOf(ll, i)) && place == g[i]
    requires newPlace == Day11a.Decide(place, Count(VisiblePlaces(ll, g, pos), Day11a.OccupiedSeat), 5)
    ensures SignedChanges(Day11a.ChangesUpTo(ll, g, VisibleCounts(ll, g), 5, i + 1))
      == SignedChanges(Day11a.ChangesUpTo(ll, g, VisibleCounts(ll, g), 5, i)) + if newPlace.Some? then [(pos, newPlace.value)] else []
  {
    Day11a.ChangesUpToStep(ll, g, VisibleCounts(ll, g), 5, i);
    var d := Day11a.Decide(g[i], VisibleCounts(ll, g)[i], 5);
    SignedChangesAppend(Day11a.ChangesUpTo(ll, g, VisibleCounts(ll, g), 5, i), if d.Some? then [(Day11a.PositionOf(ll, i), d.value)] else []);
  }

  /* ---------------------------------------------------------------- */
  /* The layout                                                        */
  /* ---------------------------------------------------------------- */

  /** `SeatLayout` of part two: the line length and the places, row after row, changed in place by the rounds. */
  class SeatLayout {
    const lineLength: nat
    const data: array<GridPlace>

    constructor(lineLength: nat, places: seq<GridPlace>)
      ensures this.lineLength == lineLength && data[..] == places && fresh(data)
    {
      this.lineLength := lineLength;
      data := new GridPlace[|places|](i requires 0 <= i < |places| => places[i]);
    }

    /** The inner loop of `get_visible_seats`: step along `d` until a place that is not floor, or off the grid. */
    method LookAlong(coords: Point, d: (int, int)) returns (seat: Option<GridPlace>)
      requires IsDirection(d)
      ensures seat == Sight(lineLength, data[..], coords, d)
    {
      ghost var g := data[..];
      var pos := coords;
      while true
        invariant Sight(lineLength, g, pos, d) == Sight(lineLength, g, coords, d)
        decreases Reach(lineLength, |g|, pos, d)
      {
        var next := Add(pos, Point(d.0, d.1));
        var place := Place(lineLength, data[..], next);
        if place == Some(Day11a.Floor) {
          ReachDecreases(lineLength, g, pos, d);
          pos := next;
        } else {
          seat := place;
          break;
        }
      }
    }

    /** `get_visible_seats`: for each of the eight directions, the seat seen along it, if any. */
    method VisibleSeats(coords: Point) returns (result: seq<GridPlace>)
      ensures result == VisiblePlaces(lineLength, data[..], coords)
    {
      ghost var g := data[..];
      var directions := [(-1, -1), (0, -1), (1, -1), (-1, 0), (1, 0), (-1, 1), (0, 1), (1, 1)];
      assert directions == Directions();
      DirectionsAreDirections();
      result := [];
      for k := 0 to |directions|
        invariant result == SightsFrom(lineLength, g, coords, directions[..k])
      {
        var seat := LookAlong(coords, directions[k]);
        SightsStep(lineLength, g, coords, directions, k);
        if seat.Some? {
          result := result + [seat.value];
        }
      }
      assert directions[..|directions|] == directions;
    }

    /** The filter-map over the iterator in `apply_seating_rules`: every change of a round, from the layout as it is. */
    method Changeset() returns (changes: seq<(Point, GridPlace)>)
      ensures changes == SignedChanges(Day11a.Changes(lineLength, data[..], VisibleCounts(lineLength, data[..]), 5))
    {
      ghost var g := data[..];
      ghost var n: nat := 0;
      var it := new SeatLayoutIter(this);
      changes := [];
      while true
        invariant it.layout == this && it.idx == n <= |g| && data[..] == g
        invariant changes == ChangesSoFar(lineLength, g, n)
        decreases |g| - n
      {
        var next := it.Next();
        if next.None? {
          break;
        }
        var (pos, place) := next.value;
        var added := PlaceChange(g, changes, n, pos, place);
        changes, n := changes + added, n + 1;
      }
      ChangesSoFarAll(lineLength, g, n);
    }

    /** The body of the filter-map: the change the rule decides for the place at `pos`, if any, after the changes of the places before it. */
    method PlaceChange(ghost g: seq<GridPlace>, ghost before: seq<(Point, GridPlace)>, ghost i: nat, pos: Point, place: GridPlace)
      returns (added: seq<(Point, GridPlace)>)
      requires g == data[..] && lineLength > 0 && i < |g| && pos == Signed(Day11a.PositionOf(lineLength, i)) && place == g[i]
      requires before == ChangesSoFar(lineLength, g, i)
      ensures before + added == ChangesSoFar(lineLength, g, i + 1)
    {
      var visible := VisibleSeats(pos);
      var newPlace := Day11a.Decide(place, Count(visible, Day11a.OccupiedSeat), 5);
      VisibleChangeStep(lineLength, g, i, pos, place, newPlace);
      added := if newPlace.Some? then [(pos, newPlace.value)] else [];
    }

    /**
     * The writing loop of `apply_seating_rules`: each change is written
     * through `get_position_mut`; `cs` are the same changes with the
     * positions of part one.
     */
    method ApplyChanges(changes: seq<(Point, GridPlace)>, ghost cs: seq<(Day11a.Point, GridPlace)>)
      requires changes == SignedChanges(cs) && Day11a.AllInGrid(lineLength, data.Length, cs)
      modifies data
      ensures data[..] == Day11a.Overlay(lineLength, old(data[..]), cs)
    {
      ghost var g := data[..];
      for k := 0 to |changes|
        invariant Day11a.AllInGrid(lineLength, data.Length, cs[..k])
        invariant data[..] == Day11a.Overlay(lineLength, g, cs[..k])
      {
        Day11a.AllInGridPrefix(lineLength, data.Length, cs, k + 1);
        Day11a.AllInGridPrefix(lineLength, data.Length, cs, k);
        var (pos, place) := changes[k];
        assert cs[..k + 1][..k] == cs[..k];
        assert pos == Signed(cs[k].0);
        data[pos.y * lineLength + pos.x % lineLength] := place;
      }
      assert cs[..|cs|] == cs;
    }

    /**
     * `apply_seating_rules`: rounds until one collects no change. The loop
     * of the source has no bound; here it runs at most `fuel` rounds and
     * `settled` says whether it stopped at a fixpoint.
     */
    method ApplySeatingRules(fuel: nat) returns (rounds: nat, settled: bool)
      modifies data
      ensures rounds <= fuel
      ensures data[..] == Rounds(lineLength, old(data[..]), rounds)
      ensures settled ==> Step(lineLength, data[..]) == data[..]
      ensures !settled ==> rounds == fuel
    {
      rounds, settled := 0, false;
      while rounds < fuel
        invariant rounds <= fuel
        invariant data[..] == Rounds(lineLength, old(data[..]), rounds)
      {
        var changes := Changeset();
        ghost var g := data[..];
        ghost var cs := Day11a.Changes(lineLength, g, VisibleCounts(lineLength, g), 5);
        Day11a.FixpointIff(lineLength, g, VisibleCounts(lineLength, g), 5);
        if changes == [] {
          settled := true;
          return;
        }
        ApplyChanges(changes, cs);
        Day11a.OverlayChanges(lineLength, g, VisibleCounts(lineLength, g), 5);
        rounds := rounds + 1;
      }
    }

    /** `count_occupied_seats`: the occupied places the iterator visits. */
    method CountOccupiedSeats() returns (n: nat)
      ensures n == if lineLength == 0 then 0 else Count(data[..], Day11a.OccupiedSeat)
    {
      ghost var g := data[..];
      ghost var i: nat := 0;
      var it := new SeatLayoutIter(this);
      n := 0;
      while true
        invariant it.layout == this && it.idx == i <= |g| && data[..] == g
        invariant n == if lineLength == 0 then 0 else Count(g[..i], Day11a.OccupiedSeat)
        decreases |g| - i
      {
        var next := it.Next();
        if next.None? {
          if lineLength > 0 {
            assert g[..i] == g;
          }
          break;
        }
        var (_, place) := next.value;
        assert g[..i + 1] == g[..i] + [place];
        if place == Day11a.OccupiedSeat {
          n := n + 1;
        }
        i := i + 1;
      }
    }
  }

  /** `SeatLayoutIter` of part two: walks the places in order with their signed positions. */
  class SeatLayoutIter {
    const layout: SeatLayout
    var idx: nat

    constructor(layout: SeatLayout)
      ensures this.layout == layout && idx == 0
    {
      this.layout := layout;
      idx := 0;
    }

    /** `next`: nothing when the line length is 0 or the places are used up; otherwise the next place and its position. */
    method Next() returns (r: Option<(Point, GridPlace)>)
      modifies this
      ensures layout.lineLength == 0 || old(idx) >= layout.data.Length ==> r == None && idx == old(idx)
      ensures layout.lineLength > 0 && old(idx) < layout.data.Length ==>
        && idx == old(idx) + 1
        && r == Some((Signed(Day11a.PositionOf(layout.lineLength, old(idx))), layout.data[old(idx)]))
    {
      if layout.lineLength == 0 || idx >= layout.data.Length {
        return None;
      }
      var place := layout.data[idx];
      var pos := Signed(Day11a.PositionOf(layout.lineLength, idx));
      idx := idx + 1;
      r := Some((pos, place));
    }
  }
}
