/**
 * Day 17, part two: Conway cubes in four dimensions. Every cube of an
 * unbounded 4-D grid is active or inactive; in a cycle an active cube stays
 * active with two or three active neighbours among its 80, and an inactive
 * cube becomes active with exactly three. All decisions of a cycle are
 * taken from the grid before the cycle, and only the cubes inside the box
 * around the active cubes, widened by one, are examined. The answer is the
 * number of active cubes after six cycles.
 *
 * The grid is a map from positions to states, as the source's `HashMap`;
 * a position that is not in the map is inactive.
 */
module Day17b {
  import opened Common

  datatype Position = Position(x: int, y: int, z: int, w: int)

  /* ---------------------------------------------------------------- */
  /* Neighbours                                                        */
  /* ---------------------------------------------------------------- */

  /** The offset visited `k`-th by the four nested loops over -1, 0, 1 (x outermost, w innermost). */
  function OffsetOf(k: nat): (o: Position)
    requires k < 81
    ensures 27 * (o.x + 1) + 9 * (o.y + 1) + 3 * (o.z + 1) + (o.w + 1) == k
    ensures -1 <= o.x <= 1 && -1 <= o.y <= 1 && -1 <= o.z <= 1 && -1 <= o.w <= 1
  {
    var a := k / 27;
    var b := (k - 27 * a) / 9;
    var c := (k - 27 * a - 9 * b) / 3;
    Position(a - 1, b - 1, c - 1, k - 27 * a - 9 * b - 3 * c - 1)
  }

  /** The loops visit each offset at one counter value. */
  lemma OffsetIndex(o: Position)
    requires -1 <= o.x <= 1 && -1 <= o.y <= 1 && -1 <= o.z <= 1 && -1 <= o.w <= 1
    ensures var k := 27 * (o.x + 1) + 9 * (o.y + 1) + 3 * (o.z + 1) + (o.w + 1);
      0 <= k < 81 && OffsetOf(k) == o
  {
  }

  /** `p` moved by offset `o`. */
  function Shift(p: Position, o: Position): Position {
    Position(p.x + o.x, p.y + o.y, p.z + o.z, p.w + o.w)
  }

  /** The counter value of the `j`-th neighbour: the zero offset (counter 40) is skipped. */
  function SkipCentre(j: nat): nat {
    if j < 40 then j else j + 1
  }

  /** The `j`-th entry `neighbours` writes. */
  function NeighbourAt(p: Position, j: nat): Position
    requires j < 80
  {
    Shift(p, OffsetOf(SkipCentre(j)))
  }

  /** What `Position::neighbours` returns, in the order it writes them. */
  function NeighbourSeq(p: Position): (r: seq<Position>)
    ensures |r| == 80
  {
    seq(80, j requires 0 <= j < 80 => NeighbourAt(p, j))
  }

  /** Within one step in every coordinate, and not the position itself. */
  predicate Near(p: Position, q: Position) {
    q != p
    && -1 <= q.x - p.x <= 1 && -1 <= q.y - p.y <= 1
    && -1 <= q.z - p.z <= 1 && -1 <= q.w - p.w <= 1
  }

  /** Every neighbour is near. */
  lemma NeighbourNear(p: Position, j: nat)
    requires j < 80
    ensures Near(p, NeighbourAt(p, j))
  {
    var o := OffsetOf(SkipCentre(j));
    if o == Position(0, 0, 0, 0) {
      assert false;
    }
  }

  /** Different entries are different positions. */
  lemma NeighboursDistinct(p: Position, i: nat, j: nat)
    requires i < 80 && j < 80 && i != j
    ensures NeighbourAt(p, i) != NeighbourAt(p, j)
  {
    var a, b := OffsetOf(SkipCentre(i)), OffsetOf(SkipCentre(j));
    assert SkipCentre(i) != SkipCentre(j);
    if Shift(p, a) == Shift(p, b) {
      assert false;
    }
  }

  /** Every near position is one of the entries. */
  lemma NeighbourFound(p: Position, q: Position) returns (j: nat)
    requires Near(p, q)
    ensures j < 80 && NeighbourAt(p, j) == q
  {
    var o := Position(q.x - p.x, q.y - p.y, q.z - p.z, q.w - p.w);
    OffsetIndex(o);
    var k := 27 * (o.x + 1) + 9 * (o.y + 1) + 3 * (o.z + 1) + (o.w + 1);
    assert k != 40;
    j := if k < 40 then k else k - 1;
    assert SkipCentre(j) == k;
  }

  /** `neighbours` returns exactly the 80 positions near `p`, each once. */
  lemma NeighboursExactly(p: Position, q: Position)
    ensures q in NeighbourSeq(p) <==> Near(p, q)
    ensures forall i, j :: 0 <= i < j < 80 ==> NeighbourSeq(p)[i] != NeighbourSeq(p)[j]
  {
    if q in NeighbourSeq(p) {
      var j :| 0 <= j < 80 && NeighbourSeq(p)[j] == q;
      NeighbourNear(p, j);
    }
    if Near(p, q) {
      var j := NeighbourFound(p, q);
      assert NeighbourSeq(p)[j] == q;
    }
    forall i, j | 0 <= i < j < 80
      ensures NeighbourSeq(p)[i] != NeighbourSeq(p)[j]
    {
      NeighboursDistinct(p, i, j);
    }
  }

  /** `n[..idx]` holds the first `idx` entries `neighbours` writes. */
  ghost predicate Filled(n: array<Position>, p: Position, idx: nat)
    reads n
  {
    idx <= 80 && idx <= n.Length && forall j :: 0 <= j < idx ==> n[j] == NeighbourAt(p, j)
  }

  /** How many entries the loops have written once `k` offsets are visited. */
  function Written(k: nat): nat {
    if k <= 40 then k else k - 1
  }

  /** One pass of the innermost loop body: skip the zero offset, else write the next entry. */
  method WriteNeighbour(n: array<Position>, p: Position, o: Position, idx: nat, ghost k: nat)
    returns (next: nat)
    modifies n
    requires n.Length == 80 && Filled(n, p, idx)
    requires -1 <= o.x <= 1 && -1 <= o.y <= 1 && -1 <= o.z <= 1 && -1 <= o.w <= 1
    requires k == 27 * (o.x + 1) + 9 * (o.y + 1) + 3 * (o.z + 1) + (o.w + 1)
    requires idx == Written(k)
    ensures Filled(n, p, next) && next == Written(k + 1)
  {
    if o.x == 0 && o.y == 0 && o.z == 0 && o.w == 0 {
      return idx;
    }
    OffsetIndex(o);
    assert SkipCentre(idx) == k;
    var q := Position(p.x + o.x, p.y + o.y, p.z + o.z, p.w + o.w);
    assert NeighbourAt(p, idx) == q;
    n[idx] := q;
    next := idx + 1;
    assert forall j :: 0 <= j < idx ==> n[j] == old(n[j]);
  }

  /**
   * `Position::neighbours`: four nested loops over the offsets -1, 0, 1,
   * skipping the zero offset, writing into an 80-slot array through a
   * running index.
   */
  method Neighbours(p: Position) returns (n: array<Position>)
    ensures fresh(n)
    ensures n[..] == NeighbourSeq(p)
  {
    n := new Position[80](_ => Position(0, 0, 0, 0));
    var idx := 0;
    ghost var k := 0;
    for ox := -1 to 2
      invariant k == 27 * (ox + 1) && idx == Written(k) && Filled(n, p, idx)
    {
      for oy := -1 to 2
        invariant k == 27 * (ox + 1) + 9 * (oy + 1) && idx == Written(k) && Filled(n, p, idx)
      {
        for oz := -1 to 2
          invariant k == 27 * (ox + 1) + 9 * (oy + 1) + 3 * (oz + 1)
          invariant idx == Written(k) && Filled(n, p, idx)
        {
          for ow := -1 to 2
            invariant k == 27 * (ox + 1) + 9 * (oy + 1) + 3 * (oz + 1) + (ow + 1)
            invariant idx == Written(k) && Filled(n, p, idx)
          {
            idx := WriteNeighbour(n, p, Position(ox, oy, oz, ow), idx, k);
            k := k + 1;
          }
        }
      }
    }
    assert n[..] == NeighbourSeq(p);
  }

  /* ---------------------------------------------------------------- */
  /* Active cubes and their bounds                                     */
  /* ---------------------------------------------------------------- */

  /** A cube is active when the map holds `true` for it; a missing cube is inactive. */
  predicate Active(cells: map<Position, bool>, q: Position) {
    q in cells && cells[q]
  }

  function ActiveSet(cells: map<Position, bool>): set<Position> {
    set q | q in cells && cells[q]
  }

  /** `lo` and `hi` are coordinate-wise lower and upper bounds of `q`. */
  predicate Within(q: Position, lo: Position, hi: Position) {
    lo.x <= q.x <= hi.x && lo.y <= q.y <= hi.y && lo.z <= q.z <= hi.z && lo.w <= q.w <= hi.w
  }

  /** Coordinate `i` of `q`: x, y, z, w for 0, 1, 2, 3. */
  function Coord(q: Position, i: nat): int
    requires i < 4
  {
    if i == 0 then q.x else if i == 1 then q.y else if i == 2 then q.z else q.w
  }

  lemma WithinCoord(q: Position, lo: Position, hi: Position, i: nat)
    requires i < 4
    ensures Within(q, lo, hi) ==> Coord(lo, i) <= Coord(q, i) <= Coord(hi, i)
  {
  }

  /** Some member of `s` has coordinate `i` equal to `v`. */
  predicate Taken(s: set<Position>, v: int, i: nat)
    requires i < 4
  {
    exists a :: a in s && Coord(a, i) == v
  }

  /** Every coordinate of `lo` and of `hi` is taken by some member of `s`. */
  predicate Attained(s: set<Position>, lo: Position, hi: Position) {
    forall i | 0 <= i < 4 :: Taken(s, Coord(lo, i), i) && Taken(s, Coord(hi, i), i)
  }

  /** `lo` holds the minimum and `hi` the maximum of each coordinate over `s`. */
  predicate IsBounds(s: set<Position>, lo: Position, hi: Position) {
    (forall q :: q in s ==> Within(q, lo, hi)) && Attained(s, lo, hi)
  }

  function MinPos(a: Position, b: Position): (r: Position)
    ensures forall i | 0 <= i < 4 :: Coord(r, i) == Min(Coord(a, i), Coord(b, i))
  {
    Position(Min(a.x, b.x), Min(a.y, b.y), Min(a.z, b.z), Min(a.w, b.w))
  }

  function MaxPos(a: Position, b: Position): (r: Position)
    ensures forall i | 0 <= i < 4 :: Coord(r, i) == Max(Coord(a, i), Coord(b, i))
  {
    Position(Max(a.x, b.x), Max(a.y, b.y), Max(a.z, b.z), Max(a.w, b.w))
  }

  function Min(a: int, b: int): int { if a <= b then a else b }
  function Max(a: int, b: int): int { if a <= b then b else a }

  /** A value taken in `s` is still taken once `q` is added; so is `q`'s own. */
  lemma TakenStep(s: set<Position>, q: Position, v: int, i: nat)
    requires i < 4 && Taken(s, v, i)
    ensures Taken(s + {q}, v, i) && Taken(s + {q}, Coord(q, i), i)
  {
    var a :| a in s && Coord(a, i) == v;
    assert a in s + {q};
    assert q in s + {q};
  }

  /** Adding one position to the set moves the bounds to include it. */
  lemma BoundsStep(s: set<Position>, lo: Position, hi: Position, q: Position)
    requires IsBounds(s, lo, hi)
    ensures IsBounds(s + {q}, MinPos(lo, q), MaxPos(hi, q))
  {
    var s', lo', hi' := s + {q}, MinPos(lo, q), MaxPos(hi, q);
    forall a | a in s' ensures Within(a, lo', hi') {
      if a in s {
        assert Within(a, lo, hi);
      }
    }
    forall i | 0 <= i < 4 ensures Taken(s', Coord(lo', i), i) && Taken(s', Coord(hi', i), i) {
      TakenStep(s, q, Coord(lo, i), i);
      TakenStep(s, q, Coord(hi, i), i);
    }
  }

  /** The minimum and maximum of one coordinate are unique. */
  lemma CoordUnique(s: set<Position>, lo: Position, hi: Position, lo': Position, hi': Position, i: nat)
    requires i < 4 && IsBounds(s, lo, hi) && IsBounds(s, lo', hi')
    ensures Coord(lo, i) == Coord(lo', i) && Coord(hi, i) == Coord(hi', i)
  {
    assert Taken(s, Coord(lo, i), i) && Taken(s, Coord(hi, i), i);
    assert Taken(s, Coord(lo', i), i) && Taken(s, Coord(hi', i), i);
    var a :| a in s && Coord(a, i) == Coord(lo, i);
    var b :| b in s && Coord(b, i) == Coord(hi, i);
    var c :| c in s && Coord(c, i) == Coord(lo', i);
    var d :| d in s && Coord(d, i) == Coord(hi', i);
    WithinCoord(a, lo', hi', i);
    WithinCoord(b, lo', hi', i);
    WithinCoord(c, lo, hi, i);
    WithinCoord(d, lo, hi, i);
  }

  /** The bounds of a non-empty set are unique. */
  lemma BoundsUnique(s: set<Position>, lo: Position, hi: Position, lo': Position, hi': Position)
    requires IsBounds(s, lo, hi) && IsBounds(s, lo', hi')
    ensures lo == lo' && hi == hi'
  {
    CoordUnique(s, lo, hi, lo', hi', 0);
    CoordUnique(s, lo, hi, lo', hi', 1);
    CoordUnique(s, lo, hi, lo', hi', 2);
    CoordUnique(s, lo, hi, lo', hi', 3);
  }

  /** The bounds of a non-empty set, as `active_bounds` computes them. */
  ghost function BoundsOf(s: set<Position>): (r: (Position, Position))
    requires s != {}
    ensures IsBounds(s, r.0, r.1)
    decreases |s|
  {
    var q :| q in s;
    if s == {q} then
      (q, q)
    else
      var b := BoundsOf(s - {q});
      BoundsStep(s - {q}, b.0, b.1, q);
      assert s - {q} + {q} == s;
      (MinPos(b.0, q), MaxPos(b.1, q))
  }

  /* ---------------------------------------------------------------- */
  /* One cycle                                                         */
  /* ---------------------------------------------------------------- */

  /** How many of `ps` are active: `filter_map(get)` then `filter` on the state, counted. */
  function CountActive(cells: map<Position, bool>, ps: seq<Position>): (r: nat)
    ensures r <= |ps|
  {
    if |ps| == 0 then 0
    else CountActive(cells, ps[..|ps| - 1]) + (if Active(cells, ps[|ps| - 1]) then 1 else 0)
  }

  /** No active entry, no count. */
  lemma {:induction false} CountNone(cells: map<Position, bool>, ps: seq<Position>)
    requires forall j :: 0 <= j < |ps| ==> !Active(cells, ps[j])
    ensures CountActive(cells, ps) == 0
  {
    if |ps| > 0 {
      CountNone(cells, ps[..|ps| - 1]);
    }
  }

  /** The number of active cubes among the 80 neighbours of `p`. */
  function ActiveNeighbours(cells: map<Position, bool>, p: Position): nat {
    CountActive(cells, NeighbourSeq(p))
  }

  /** The state a cube has after a cycle, from its state and its active neighbours. */
  predicate Rule(state: bool, activeNeighbours: nat) {
    if state then activeNeighbours == 2 || activeNeighbours == 3 else activeNeighbours == 3
  }

  /** The rule keeps an active cube with two or three, and wakes an inactive one with three. */
  lemma RuleCases(state: bool, n: nat)
    ensures state ==> (Rule(state, n) <==> n == 2 || n == 3)
    ensures !state ==> (Rule(state, n) <==> n == 3)
    ensures Rule(state, n) ==> n == 2 || n == 3
  {
  }

  /** `q` lies in the box `lo`..`hi` widened by one in every direction. */
  predicate InBox(q: Position, lo: Position, hi: Position) {
    Within(q, Position(lo.x - 1, lo.y - 1, lo.z - 1, lo.w - 1), Position(hi.x + 1, hi.y + 1, hi.z + 1, hi.w + 1))
  }

  predicate ShouldDeactivate(cells: map<Position, bool>, q: Position) {
    Active(cells, q) && !Rule(true, ActiveNeighbours(cells, q))
  }

  predicate ShouldActivate(cells: map<Position, bool>, q: Position) {
    !Active(cells, q) && Rule(false, ActiveNeighbours(cells, q))
  }

  /** The `deactivate` set a cycle collects over the widened box. */
  function Deactivations(cells: map<Position, bool>, lo: Position, hi: Position): (r: set<Position>)
    ensures forall q :: q in r <==> InBox(q, lo, hi) && ShouldDeactivate(cells, q)
  {
    set x, y, z, w | lo.x - 1 <= x <= hi.x + 1 && lo.y - 1 <= y <= hi.y + 1
      && lo.z - 1 <= z <= hi.z + 1 && lo.w - 1 <= w <= hi.w + 1
      && ShouldDeactivate(cells, Position(x, y, z, w)) :: Position(x, y, z, w)
  }

  /** The `activate` set a cycle collects over the widened box. */
  function Activations(cells: map<Position, bool>, lo: Position, hi: Position): (r: set<Position>)
    ensures forall q :: q in r <==> InBox(q, lo, hi) && ShouldActivate(cells, q)
  {
    set x, y, z, w | lo.x - 1 <= x <= hi.x + 1 && lo.y - 1 <= y <= hi.y + 1
      && lo.z - 1 <= z <= hi.z + 1 && lo.w - 1 <= w <= hi.w + 1
      && ShouldActivate(cells, Position(x, y, z, w)) :: Position(x, y, z, w)
  }

  /** Every member of `s` mapped to `v`. */
  function MapTo(s: set<Position>, v: bool): map<Position, bool> {
    map q | q in s :: v
  }

  /** The grid after the two write loops of a cycle: deactivations first, then activations. */
  function CycleCells(cells: map<Position, bool>, lo: Position, hi: Position): map<Position, bool> {
    cells + MapTo(Deactivations(cells, lo, hi), false) + MapTo(Activations(cells, lo, hi), true)
  }

  /**
   * Inside the widened box a cycle applies the rule; outside it every
   * cube keeps its entry (or its absence).
   */
  lemma CycleCellsAt(cells: map<Position, bool>, lo: Position, hi: Position, q: Position)
    ensures InBox(q, lo, hi) ==> (Active(CycleCells(cells, lo, hi), q) <==> Rule(Active(cells, q), ActiveNeighbours(cells, q)))
    ensures !InBox(q, lo, hi) ==> (q in CycleCells(cells, lo, hi) <==> q in cells)
    ensures !InBox(q, lo, hi) && q in cells ==> CycleCells(cells, lo, hi)[q] == cells[q]
  {
  }

  /** Every active cube lies within the bounds of the active cubes. */
  lemma ActiveWithin(cells: map<Position, bool>, lo: Position, hi: Position, q: Position)
    requires IsBounds(ActiveSet(cells), lo, hi)
    ensures Active(cells, q) ==> Within(q, lo, hi)
  {
    if Active(cells, q) {
      assert q in ActiveSet(cells);
    }
  }

  /**
   * Outside the widened box of the active cubes nothing is active and no
   * neighbour is active, so examining only the box misses no change.
   */
  lemma QuietOutside(cells: map<Position, bool>, lo: Position, hi: Position, q: Position)
    requires IsBounds(ActiveSet(cells), lo, hi)
    requires !InBox(q, lo, hi)
    ensures !Active(cells, q) && ActiveNeighbours(cells, q) == 0
  {
    ActiveWithin(cells, lo, hi, q);
    var ns := NeighbourSeq(q);
    forall j | 0 <= j < |ns| ensures !Active(cells, ns[j]) {
      NeighbourNear(q, j);
      ActiveWithin(cells, lo, hi, ns[j]);
    }
    CountNone(cells, ns);
  }

  /** A cycle is the rule applied to every cube of the unbounded grid. */
  lemma CycleIsRule(cells: map<Position, bool>, lo: Position, hi: Position, q: Position)
    requires IsBounds(ActiveSet(cells), lo, hi)
    ensures Active(CycleCells(cells, lo, hi), q) <==> Rule(Active(cells, q), ActiveNeighbours(cells, q))
  {
    CycleCellsAt(cells, lo, hi, q);
    if !InBox(q, lo, hi) {
      QuietOutside(cells, lo, hi, q);
    }
  }

  /** The grid after one `simulate_cycle`, defined when some cube is active. */
  ghost function Cycle(cells: map<Position, bool>): (r: map<Position, bool>)
    requires ActiveSet(cells) != {}
    ensures forall q :: Active(r, q) <==> Rule(Active(cells, q), ActiveNeighbours(cells, q))
  {
    var b := BoundsOf(ActiveSet(cells));
    forall q ensures Active(CycleCells(cells, b.0, b.1), q) <==> Rule(Active(cells, q), ActiveNeighbours(cells, q)) {
      CycleIsRule(cells, b.0, b.1, q);
    }
    CycleCells(cells, b.0, b.1)
  }

  /**
   * The grid after `n` cycles, or `None` when some cycle finds no active
   * cube: `active_bounds` then unwraps an empty minimum and panics.
   */
  ghost function Evolve(cells: map<Position, bool>, n: nat): Option<map<Position, bool>> {
    if n == 0 then Some(cells)
    else match Evolve(cells, n - 1)
      case None => None
      case Some(c) => if ActiveSet(c) == {} then None else Some(Cycle(c))
  }

  /** `n` cycles reach `None` once an earlier number of them does. */
  lemma {:induction false} EvolveStaysNone(cells: map<Position, bool>, m: nat, n: nat)
    requires m <= n && Evolve(cells, m).None?
    ensures Evolve(cells, n).None?
    decreases n - m
  {
    if m < n {
      EvolveStaysNone(cells, m + 1, n);
    }
  }

  /** With only `p` possibly active, a list without repeats counts at most `p` itself. */
  lemma {:induction false} CountLone(cells: map<Position, bool>, p: Position, ps: seq<Position>)
    requires forall r :: Active(cells, r) ==> r == p
    requires forall i, j :: 0 <= i < j < |ps| ==> ps[i] != ps[j]
    ensures CountActive(cells, ps) == if p in ps && Active(cells, p) then 1 else 0
  {
    if |ps| > 0 {
      var init := ps[..|ps| - 1];
      CountLone(cells, p, init);
      assert ps == init + [ps[|ps| - 1]];
      if ps[|ps| - 1] == p {
        assert p !in init;
      }
    }
  }

  /** Around a lone active cube `p`, a cube sees it exactly when it is near it. */
  lemma LoneNeighbours(p: Position, q: Position)
    ensures ActiveNeighbours(map[p := true], q) == if Near(q, p) then 1 else 0
  {
    NeighboursExactly(q, p);
    CountLone(map[p := true], p, NeighbourSeq(q));
  }

  /** Any grid obeying the rule after a lone cube has no active cube. */
  lemma LoneRule(p: Position, next: map<Position, bool>)
    requires forall q :: Active(next, q) <==> Rule(Active(map[p := true], q), ActiveNeighbours(map[p := true], q))
    ensures ActiveSet(next) == {}
  {
    forall q ensures q !in ActiveSet(next) {
      LoneNeighbours(p, q);
    }
  }

  /** A lone active cube has no active neighbour and dies in the first cycle. */
  lemma LoneCubeDies(p: Position)
    ensures ActiveSet(map[p := true]) != {} && ActiveSet(Cycle(map[p := true])) == {}
  {
    assert p in ActiveSet(map[p := true]);
    LoneRule(p, Cycle(map[p := true]));
  }

  /**
   * So the second cycle finds no active cube and `active_bounds` panics:
   * six cycles of a single `#` do not complete.
   */
  lemma LoneCubePanics(p: Position)
    ensures Evolve(map[p := true], 1).Some? && Evolve(map[p := true], 6).None?
  {
    LoneCubeDies(p);
    DiesThenPanics(map[p := true]);
    EvolveStaysNone(map[p := true], 2, 6);
  }

  /** A grid whose first cycle leaves no active cube fails at the second. */
  lemma DiesThenPanics(cells: map<Position, bool>)
    requires ActiveSet(cells) != {} && ActiveSet(Cycle(cells)) == {}
    ensures Evolve(cells, 1).Some? && Evolve(cells, 2).None?
  {
    assert Evolve(cells, 0) == Some(cells);
    var next := Cycle(cells);
    assert Evolve(cells, 1) == Some(next);
  }

  /* ---------------------------------------------------------------- */
  /* Collecting the decisions of a cycle                               */
  /* ---------------------------------------------------------------- */

  /** `q` is in the widened box and comes before (z, w, y, x) in the loops' order. */
  predicate Seen(q: Position, lo: Position, hi: Position, z: int, w: int, y: int, x: int) {
    InBox(q, lo, hi)
    && (q.z < z || (q.z == z && (q.w < w || (q.w == w && (q.y < y || (q.y == y && q.x < x))))))
  }

  /** The two sets hold exactly the decisions for the positions seen so far. */
  ghost predicate Collected(cells: map<Position, bool>, lo: Position, hi: Position,
                            deactivate: set<Position>, activate: set<Position>,
                            z: int, w: int, y: int, x: int)
  {
    (forall q :: q in deactivate <==> Seen(q, lo, hi, z, w, y, x) && ShouldDeactivate(cells, q))
    && (forall q :: q in activate <==> Seen(q, lo, hi, z, w, y, x) && ShouldActivate(cells, q))
  }

  /** Seeing the same positions, the same decisions are collected. */
  lemma CollectedSame(cells: map<Position, bool>, lo: Position, hi: Position,
                      deactivate: set<Position>, activate: set<Position>,
                      z: int, w: int, y: int, x: int, z': int, w': int, y': int, x': int)
    requires Collected(cells, lo, hi, deactivate, activate, z, w, y, x)
    requires forall q :: Seen(q, lo, hi, z, w, y, x) <==> Seen(q, lo, hi, z', w', y', x')
    ensures Collected(cells, lo, hi, deactivate, activate, z', w', y', x')
  {
  }

  /** Checking one more position of the box adds its decision. */
  lemma CollectedStep(cells: map<Position, bool>, lo: Position, hi: Position,
                      deactivate: set<Position>, activate: set<Position>,
                      z: int, w: int, y: int, x: int)
    requires Collected(cells, lo, hi, deactivate, activate, z, w, y, x)
    requires InBox(Position(x, y, z, w), lo, hi)
    ensures var p := Position(x, y, z, w);
      Collected(cells, lo, hi,
                if ShouldDeactivate(cells, p) then deactivate + {p} else deactivate,
                if ShouldActivate(cells, p) then activate + {p} else activate,
                z, w, y, x + 1)
  {
    var p := Position(x, y, z, w);
    forall q ensures Seen(q, lo, hi, z, w, y, x + 1) <==> Seen(q, lo, hi, z, w, y, x) || q == p {
      if q.z == z && q.w == w && q.y == y && q.x == x {
        assert q == p;
      }
    }
  }

  /** Once the whole box is seen, the sets are the cycle's sets. */
  lemma CollectedAll(cells: map<Position, bool>, lo: Position, hi: Position,
                     deactivate: set<Position>, activate: set<Position>)
    requires Collected(cells, lo, hi, deactivate, activate, hi.z + 2, lo.w - 1, lo.y - 1, lo.x - 1)
    ensures deactivate == Deactivations(cells, lo, hi) && activate == Activations(cells, lo, hi)
  {
  }

  /* ---------------------------------------------------------------- */
  /* Parsing                                                           */
  /* ---------------------------------------------------------------- */

  /** The input lines, each trimmed as `parse_grid_slice` trims it. */
  function Rows(lines: seq<string>): (rows: seq<string>)
    ensures |rows| == |lines| && forall i :: 0 <= i < |lines| ==> rows[i] == Trim(lines[i])
  {
    seq(|lines|, i requires 0 <= i < |lines| => Trim(lines[i]))
  }

  /** `q` is a character of the trimmed rows: row `q.y`, column `q.x`, in the plane z = w = 0. */
  predicate InSlice(rows: seq<string>, q: Position) {
    q.z == 0 && q.w == 0 && 0 <= q.y < |rows| && 0 <= q.x < |rows[q.y]|
  }

  /** `q` is a character of the rows before column `x` of row `y`. */
  predicate SliceBefore(rows: seq<string>, q: Position, y: int, x: int) {
    InSlice(rows, q) && (q.y < y || (q.y == y && q.x < x))
  }

  /**
   * `cells` is `start` with the characters before column `x` of row `y`
   * inserted, each active exactly for a `#`, and every other entry as it
   * was.
   */
  ghost predicate Parsed(start: map<Position, bool>, cells: map<Position, bool>, rows: seq<string>, y: int, x: int) {
    (forall q :: q in cells <==> q in start || SliceBefore(rows, q, y, x))
    && (forall q :: SliceBefore(rows, q, y, x) ==> (cells[q] <==> rows[q.y][q.x] == '#'))
    && (forall q :: q in start && !SliceBefore(rows, q, y, x) ==> cells[q] == start[q])
  }

  /** Inserting the next character of the row. */
  lemma ParsedStep(start: map<Position, bool>, cells: map<Position, bool>, rows: seq<string>, y: nat, x: nat)
    requires Parsed(start, cells, rows, y, x)
    requires y < |rows| && x < |rows[y]|
    ensures Parsed(start, cells[Position(x, y, 0, 0) := rows[y][x] == '#'], rows, y, x + 1)
  {
    var p := Position(x, y, 0, 0);
    assert InSlice(rows, p);
    forall q ensures SliceBefore(rows, q, y, x + 1) <==> SliceBefore(rows, q, y, x) || q == p {
    }
  }

  /** After the last character of a row, the next row starts. */
  lemma ParsedNextLine(start: map<Position, bool>, cells: map<Position, bool>, rows: seq<string>, y: nat)
    requires y < |rows| && Parsed(start, cells, rows, y, |rows[y]|)
    ensures Parsed(start, cells, rows, y + 1, 0)
  {
    forall q ensures SliceBefore(rows, q, y, |rows[y]|) <==> SliceBefore(rows, q, y + 1, 0) {
    }
  }

  /** After all rows: the map gains exactly the input's characters, each active for `#`. */
  lemma ParsedAll(start: map<Position, bool>, cells: map<Position, bool>, lines: seq<string>, q: Position)
    requires Parsed(start, cells, Rows(lines), |lines|, 0)
    ensures q in cells <==> q in start || InSlice(Rows(lines), q)
    ensures InSlice(Rows(lines), q) ==> (Active(cells, q) <==> Trim(lines[q.y])[q.x] == '#')
    ensures q in start && !InSlice(Rows(lines), q) ==> cells[q] == start[q]
  {
    assert SliceBefore(Rows(lines), q, |lines|, 0) <==> InSlice(Rows(lines), q);
  }

  /* ---------------------------------------------------------------- */
  /* The grid                                                          */
  /* ---------------------------------------------------------------- */

  class Grid {
    var cells: map<Position, bool>

    /** `Grid::new`: no cube is in the map. */
    constructor ()
      ensures cells == map[]
    {
      cells := map[];
    }

    /**
     * `parse_grid_slice`: each line is trimmed and each of its characters
     * at column x of line y is inserted at (x, y, 0, 0), active for `#`.
     * Every line advances y, a blank one included.
     */
    method ParseGridSlice(lines: seq<string>)
      modifies this
      ensures Parsed(old(cells), cells, Rows(lines), |lines|, 0)
    {
      ghost var start := cells;
      ghost var rows := Rows(lines);
      for y := 0 to |lines|
        invariant Parsed(start, cells, rows, y, 0)
      {
        var line := Trim(lines[y]);
        assert line == rows[y];
        for x := 0 to |line|
          invariant Parsed(start, cells, rows, y, x)
        {
          ParsedStep(start, cells, rows, y, x);
          cells := cells[Position(x, y, 0, 0) := line[x] == '#'];
        }
        ParsedNextLine(start, cells, rows, y);
      }
    }

    /**
     * `active_bounds`: the least and the greatest of each coordinate over
     * the active cubes, or `None` where the source unwraps the minimum of
     * an empty collection and panics.
     */
    method ActiveBounds() returns (r: Option<(Position, Position)>)
      ensures r.None? <==> ActiveSet(cells) == {}
      ensures r.Some? ==> IsBounds(ActiveSet(cells), r.value.0, r.value.1)
    {
      var rest := set q | q in cells && cells[q];
      if rest == {} {
        return None;
      }
      var q :| q in rest;
      var lo, hi := q, q;
      ghost var done := {q};
      assert Attained(done, lo, hi) by {
        forall i | 0 <= i < 4 ensures Taken(done, Coord(q, i), i) {
          assert q in done;
        }
      }
      rest := rest - {q};
      while rest != {}
        invariant done + rest == ActiveSet(cells) && done !! rest
        invariant IsBounds(done, lo, hi)
        decreases |rest|
      {
        q :| q in rest;
        BoundsStep(done, lo, hi, q);
        lo, hi := MinPos(lo, q), MaxPos(hi, q);
        done, rest := done + {q}, rest - {q};
      }
      return Some((lo, hi));
    }

    /** `active_count`: the number of active cubes. */
    method ActiveCount() returns (n: nat)
      ensures n == |ActiveSet(cells)|
    {
      n := 0;
      var rest := cells.Keys;
      while rest != {}
        invariant rest <= cells.Keys
        invariant n == |ActiveSet(cells) - rest|
        decreases |rest|
      {
        var k :| k in rest;
        ghost var before := ActiveSet(cells) - rest;
        if cells[k] {
          assert ActiveSet(cells) - (rest - {k}) == before + {k};
          n := n + 1;
        } else {
          assert ActiveSet(cells) - (rest - {k}) == before;
        }
        rest := rest - {k};
      }
      assert ActiveSet(cells) - rest == ActiveSet(cells);
    }

    /** `active_neighbours`: how many of the 80 neighbours of `pos` are active. */
    method CountActiveNeighbours(pos: Position) returns (count: nat)
      ensures count == ActiveNeighbours(cells, pos)
    {
      var ns := Neighbours(pos);
      count := 0;
      for i := 0 to 80
        invariant count == CountActive(cells, ns[..i])
      {
        assert ns[..i + 1][..i] == ns[..i];
        if ns[i] in cells && cells[ns[i]] {
          count := count + 1;
        }
      }
      assert ns[..80] == ns[..];
    }

    /**
     * `check_pos`: an active cube without two or three active neighbours is
     * marked for deactivation, an inactive one with three for activation.
     */
    method CheckPos(pos: Position, deactivate: set<Position>, activate: set<Position>)
      returns (deactivate': set<Position>, activate': set<Position>)
      ensures deactivate' == if ShouldDeactivate(cells, pos) then deactivate + {pos} else deactivate
      ensures activate' == if ShouldActivate(cells, pos) then activate + {pos} else activate
    {
      var state := if pos in cells then cells[pos] else false;
      var activeNb := CountActiveNeighbours(pos);
      deactivate', activate' := deactivate, activate;
      if state {
        if activeNb != 2 && activeNb != 3 {
          deactivate' := deactivate + {pos};
        }
      } else {
        if activeNb == 3 {
          activate' := activate + {pos};
        }
      }
    }

    /** The two inner loops of `simulate_cycle`: every (x, y) of the box in the plane (z, w). */
    method CheckPlane(lo: Position, hi: Position, z: int, w: int,
                      deactivate: set<Position>, activate: set<Position>)
      returns (deactivate': set<Position>, activate': set<Position>)
      requires lo.x <= hi.x && lo.y <= hi.y
      requires lo.z - 1 <= z <= hi.z + 1 && lo.w - 1 <= w <= hi.w + 1
      requires Collected(cells, lo, hi, deactivate, activate, z, w, lo.y - 1, lo.x - 1)
      ensures Collected(cells, lo, hi, deactivate', activate', z, w + 1, lo.y - 1, lo.x - 1)
    {
      deactivate', activate' := deactivate, activate;
      for y := lo.y - 1 to hi.y + 2
        invariant Collected(cells, lo, hi, deactivate', activate', z, w, y, lo.x - 1)
      {
        for x := lo.x - 1 to hi.x + 2
          invariant Collected(cells, lo, hi, deactivate', activate', z, w, y, x)
        {
          CollectedStep(cells, lo, hi, deactivate', activate', z, w, y, x);
          deactivate', activate' := CheckPos(Position(x, y, z, w), deactivate', activate');
        }
        CollectedSame(cells, lo, hi, deactivate', activate', z, w, y, hi.x + 2, z, w, y + 1, lo.x - 1);
      }
      CollectedSame(cells, lo, hi, deactivate', activate', z, w, hi.y + 2, lo.x - 1, z, w + 1, lo.y - 1, lo.x - 1);
    }

    /**
     * `simulate_cycle`: with the bounds of the active cubes, every position
     * of the box widened by one is checked in the order z, w, y, x and its
     * decision collected; only then are the deactivations and then the
     * activations written. Without an active cube `active_bounds` panics,
     * which is `ok == false` with nothing written.
     */
    method SimulateCycle() returns (ok: bool)
      modifies this
      ensures ok <==> ActiveSet(old(cells)) != {}
      ensures ok ==> cells == Cycle(old(cells))
      ensures !ok ==> cells == old(cells)
    {
      var bounds := ActiveBounds();
      if bounds.None? {
        return false;
      }
      var (lo, hi) := bounds.value;
      ghost var some :| some in ActiveSet(cells);
      assert Within(some, lo, hi);
      var deactivate: set<Position> := {};
      var activate: set<Position> := {};
      for z := lo.z - 1 to hi.z + 2
        invariant cells == old(cells)
        invariant Collected(cells, lo, hi, deactivate, activate, z, lo.w - 1, lo.y - 1, lo.x - 1)
      {
        for w := lo.w - 1 to hi.w + 2
          invariant cells == old(cells)
          invariant Collected(cells, lo, hi, deactivate, activate, z, w, lo.y - 1, lo.x - 1)
        {
          deactivate, activate := CheckPlane(lo, hi, z, w, deactivate, activate);
        }
        CollectedSame(cells, lo, hi, deactivate, activate, z, hi.w + 2, lo.y - 1, lo.x - 1, z + 1, lo.w - 1, lo.y - 1, lo.x - 1);
      }
      CollectedAll(cells, lo, hi, deactivate, activate);
      ghost var b := BoundsOf(ActiveSet(cells));
      BoundsUnique(ActiveSet(cells), lo, hi, b.0, b.1);
      InsertAll(deactivate, false);
      InsertAll(activate, true);
      return true;
    }

    /** `simulate_cycles`: `cycles` cycles in turn; a panicking cycle ends the run. */
    method SimulateCycles(cycles: nat) returns (ok: bool)
      modifies this
      ensures ok <==> Evolve(old(cells), cycles).Some?
      ensures ok ==> cells == Evolve(old(cells), cycles).value
    {
      for cycle := 0 to cycles
        invariant Evolve(old(cells), cycle) == Some(cells)
      {
        ok := SimulateCycle();
        if !ok {
          EvolveStaysNone(old(cells), cycle + 1, cycles);
          return false;
        }
      }
      return true;
    }

    /** One write loop of a cycle: every member of `s` is inserted with state `v`. */
    method InsertAll(s: set<Position>, v: bool)
      modifies this
      ensures cells == old(cells) + MapTo(s, v)
    {
      var rest := s;
      while rest != {}
        invariant rest <= s
        invariant cells == old(cells) + MapTo(s - rest, v)
        decreases |rest|
      {
        var q :| q in rest;
        assert s - (rest - {q}) == (s - rest) + {q};
        assert old(cells) + MapTo(s - (rest - {q}), v) == (old(cells) + MapTo(s - rest, v))[q := v];
        cells := cells[q := v];
        rest := rest - {q};
      }
      assert s - rest == s;
    }
  }
}
