/**
 * Day 12, part two: the same instructions now steer a waypoint that
 * travels with the ship. N, S, E, W move the waypoint, L and R rotate it
 * about the ship, and F moves the ship to the waypoint `value` times.
 * The waypoint starts 10 east and 1 north of the ship.
 *
 * The source rotates with `f32` sine and cosine and rounds; the model
 * rotates by whole quarter turns, which is what that computes for an
 * angle that is a multiple of 90 degrees.
 */
module Day12b {
  import opened Common
  import Day12a

  type Point = Day12a.Point
  type NavigationInstruction = Day12a.NavigationInstruction

  /* ---------------------------------------------------------------- */
  /* Rotating the waypoint                                             */
  /* ---------------------------------------------------------------- */

  /** A quarter turn clockwise about the ship: (x, y) becomes (y, -x). */
  function RotateQuarter(p: Point): (r: Point)
    ensures Norm(r) == Norm(p)
  {
    Day12a.Point(p.y, -p.x)
  }

  /** `k` quarter turns clockwise. */
  function RotateTimes(p: Point, k: nat): Point
    decreases k
  {
    if k == 0 then p else RotateTimes(RotateQuarter(p), k - 1)
  }

  /**
   * `rotate(angle.to_radians())` for an angle that is a multiple of 90
   * degrees: a positive angle turns clockwise, a negative one
   * anticlockwise, so the angle is `(angle / 90) mod 4` clockwise quarters.
   */
  function Rotate(p: Point, angle: int): Point
    requires angle % 90 == 0
  {
    RotateTimes(p, (angle / 90) % 4)
  }

  /** The distance of a point from the ship, |x| + |y|. */
  function Norm(p: Point): nat {
    Day12a.Abs(p.x) + Day12a.Abs(p.y)
  }

  /** Turning never changes how far the waypoint is from the ship. */
  lemma {:induction false} RotateTimesNorm(p: Point, k: nat)
    ensures Norm(RotateTimes(p, k)) == Norm(p)
    decreases k
  {
    if k > 0 {
      RotateTimesNorm(RotateQuarter(p), k - 1);
    }
  }

  /** `j` quarter turns, then `k` more, are `j + k` quarter turns. */
  lemma {:induction false} RotateTimesAdd(p: Point, j: nat, k: nat)
    ensures RotateTimes(RotateTimes(p, j), k) == RotateTimes(p, j + k)
    decreases j
  {
    if j > 0 {
      RotateTimesAdd(RotateQuarter(p), j - 1, k);
    }
  }

  /** Four quarter turns are the identity. */
  lemma FullTurn(p: Point)
    ensures RotateTimes(p, 4) == p
  {
    var p1 := RotateQuarter(p);
    var p2 := RotateQuarter(p1);
    var p3 := RotateQuarter(p2);
    assert RotateTimes(p, 4) == RotateTimes(p3, 1);
  }

  /** Quarter turns repeat with period 4. */
  lemma {:induction false} RotateTimesMod(p: Point, k: nat)
    ensures RotateTimes(p, k) == RotateTimes(p, k % 4)
    decreases k
  {
    if k >= 4 {
      FullTurn(p);
      RotateTimesAdd(p, 4, k - 4);
      RotateTimesMod(p, k - 4);
    }
  }

  /** A rotation by any multiple of 90 degrees keeps the waypoint's distance. */
  lemma RotateNorm(p: Point, angle: int)
    requires angle % 90 == 0
    ensures Norm(Rotate(p, angle)) == Norm(p)
  {
    RotateTimesNorm(p, (angle / 90) % 4);
  }

  /** The quarter counts of an angle and of its negation add up to a multiple of 4. */
  lemma QuarterCounts(angle: int)
    requires angle % 90 == 0
    ensures (-angle) % 90 == 0
    ensures ((angle / 90) % 4 + ((-angle) / 90) % 4) % 4 == 0
  {
    var q := angle / 90;
    assert angle == 90 * q;
    assert -angle == 90 * (-q);
    assert (-angle) / 90 == -q;
    var j, k := q % 4, (-q) % 4;
    assert q == 4 * (q / 4) + j;
    assert -q == 4 * ((-q) / 4) + k;
    assert j + k == 4 * (-(q / 4) - (-q) / 4);
  }

  /** Rotating by an angle and then by its negation restores the waypoint: R then L by the same value. */
  lemma RotateBack(p: Point, angle: int)
    requires angle % 90 == 0
    ensures (-angle) % 90 == 0
    ensures Rotate(Rotate(p, angle), -angle) == p
  {
    QuarterCounts(angle);
    var j, k := (angle / 90) % 4, ((-angle) / 90) % 4;
    RotateTimesAdd(p, j, k);
    RotateTimesMod(p, j + k);
  }

  /** The source's rotation test: (10, 4) turned by 90 degrees is (4, -10). */
  lemma RotationExample()
    ensures Rotate(Day12a.Point(10, 4), 90) == Day12a.Point(4, -10)
  {
  }

  /* ---------------------------------------------------------------- */
  /* Turn angles                                                       */
  /* ---------------------------------------------------------------- */

  /**
   * The angle of a turn, `i8::from(dir) as i16 * value as i16`, or `None`
   * where the 16-bit product overflows (a debug-build panic).
   */
  function Angle(t: Day12a.TurnDirection, value: Day12a.U16): (r: Option<int>)
    ensures r.None? <==> t == Day12a.Left && value == 0x8000
    ensures r.Some? ==> (r.value - Day12a.TurnSign(t) * value) % 0x1_0000 == 0
  {
    match t
    case Left => Day12a.CheckedI16(-Day12a.AsI16(value))
    case Right => Day12a.CheckedI16(Day12a.AsI16(value))
  }

  /** The model covers a turn whose angle is a multiple of 90 degrees, or that overflows. */
  predicate Modelled(i: NavigationInstruction) {
    i.action.Turn? ==>
      match Angle(i.action.turn, i.value)
      case None => true
      case Some(a) => a % 90 == 0
  }

  /** Every turn written with a multiple of 90 below 32768 is covered. */
  lemma QuarterTurnsModelled(i: NavigationInstruction)
    requires i.value % 90 == 0 && i.value <= I16_MAX
    ensures Modelled(i)
  {
    if i.action.Turn? && i.action.turn == Day12a.Left {
      Day12a.QuarterNegate(i.value);
    }
  }

  predicate AllModelled(ins: seq<NavigationInstruction>) {
    forall k :: 0 <= k < |ins| ==> Modelled(ins[k])
  }

  /* ---------------------------------------------------------------- */
  /* The ship's specification                                          */
  /* ---------------------------------------------------------------- */

  datatype ShipState = ShipState(location: Point, waypoint: Point)

  /**
   * The state after one instruction: N, S, E, W move only the waypoint,
   * L and R rotate only the waypoint, F adds the waypoint to the location
   * `value` times and keeps the waypoint. `None` is the overflow panic.
   */
  function NavigateStep(s: ShipState, i: NavigationInstruction): (r: Option<ShipState>)
    requires Modelled(i)
    ensures r.None? <==> i.action == Day12a.Turn(Day12a.Left) && i.value == 0x8000
    ensures r.Some? && i.action.Turn? ==> r.value.location == s.location && Norm(r.value.waypoint) == Norm(s.waypoint)
    ensures r.Some? && i.action.Move? && i.action.move.Absolute? ==>
      r.value.location == s.location && Day12a.Manhattan(r.value.waypoint, s.waypoint) == i.value
    ensures r.Some? && i.action == Day12a.Move(Day12a.Forward) ==> r.value.waypoint == s.waypoint
  {
    match i.action
    case Turn(t) =>
      (match Angle(t, i.value)
       case None => None
       case Some(a) =>
         RotateNorm(s.waypoint, a);
         Some(ShipState(s.location, Rotate(s.waypoint, a))))
    case Move(Absolute(d)) =>
      Day12a.MoveByDistance(s.waypoint, d, i.value);
      Some(ShipState(s.location, Day12a.MoveBy(s.waypoint, d, i.value)))
    case Move(Forward) =>
      Some(ShipState(Day12a.Point(s.location.x + i.value * s.waypoint.x, s.location.y + i.value * s.waypoint.y),
                     s.waypoint))
  }

  /** A full turn of 360 degrees either way leaves the waypoint where it was. */
  lemma FullCircle(p: Point)
    ensures Rotate(p, 360) == p && Rotate(p, -360) == p
  {
    FullTurn(p);
  }

  /** R then L by the same multiple of 90 puts the waypoint back and leaves the ship in place. */
  lemma TurnRightThenLeft(s: ShipState, value: Day12a.U16)
    requires value <= I16_MAX && value % 90 == 0
    ensures Modelled(Day12a.NavigationInstruction(value, Day12a.Turn(Day12a.Right)))
    ensures Modelled(Day12a.NavigationInstruction(value, Day12a.Turn(Day12a.Left)))
    ensures var r := NavigateStep(s, Day12a.NavigationInstruction(value, Day12a.Turn(Day12a.Right)));
      r.Some? && NavigateStep(r.value, Day12a.NavigationInstruction(value, Day12a.Turn(Day12a.Left))) == Some(s)
  {
    QuarterTurnsModelled(Day12a.NavigationInstruction(value, Day12a.Turn(Day12a.Right)));
    QuarterTurnsModelled(Day12a.NavigationInstruction(value, Day12a.Turn(Day12a.Left)));
    assert Angle(Day12a.Right, value) == Some(value);
    assert Angle(Day12a.Left, value) == Some(-(value as int));
    RotateBack(s.waypoint, value);
  }

  /** The state after the instructions in turn, `None` once one panics. */
  function Follow(s: ShipState, ins: seq<NavigationInstruction>): Option<ShipState>
    requires AllModelled(ins)
    decreases |ins|
  {
    if |ins| == 0 then Some(s)
    else match NavigateStep(s, ins[0])
      case None => None
      case Some(s') => Follow(s', ins[1..])
  }

  /** Following `a + b` is following `a`, then `b`. */
  lemma {:induction false} FollowAppend(s: ShipState, a: seq<NavigationInstruction>, b: seq<NavigationInstruction>)
    requires AllModelled(a) && AllModelled(b)
    ensures AllModelled(a + b)
    ensures Follow(s, a + b) == match Follow(s, a) case None => None case Some(t) => Follow(t, b)
    decreases |a|
  {
    assert AllModelled(a + b) by {
      forall k | 0 <= k < |a + b|
        ensures Modelled((a + b)[k])
      {
        if k < |a| {
          assert (a + b)[k] == a[k];
        } else {
          assert (a + b)[k] == b[k - |a|];
        }
      }
    }
    if |a| > 0 {
      assert (a + b)[0] == a[0];
      assert (a + b)[1..] == a[1..] + b;
      assert AllModelled(a[1..]) by {
        forall k | 0 <= k < |a[1..]|
          ensures Modelled(a[1..][k])
        {
          assert a[1..][k] == a[k + 1];
        }
      }
      match NavigateStep(s, a[0])
      case None =>
      case Some(s') => FollowAppend(s', a[1..], b);
    } else {
      assert a + b == b;
    }
  }

  /** Following `ins[k..]` from `s` is the step `ins[k]`, then `ins[k + 1..]`. */
  lemma FollowFrom(s: ShipState, ins: seq<NavigationInstruction>, k: nat, t: ShipState)
    requires AllModelled(ins)
    requires k < |ins| && NavigateStep(s, ins[k]) == Some(t)
    ensures AllModelled(ins[k..]) && AllModelled(ins[k + 1..])
    ensures Follow(s, ins[k..]) == Follow(t, ins[k + 1..])
  {
    assert AllModelled(ins[k..]) by {
      forall j | 0 <= j < |ins[k..]|
        ensures Modelled(ins[k..][j])
      {
        assert ins[k..][j] == ins[k + j];
      }
    }
    var rest := ins[k + 1..];
    assert AllModelled(rest) by {
      forall j | 0 <= j < |rest|
        ensures Modelled(rest[j])
      {
        assert rest[j] == ins[k + 1 + j];
      }
    }
    assert ins[k..][0] == ins[k] && ins[k..][1..] == ins[k + 1..];
  }

  /* ---------------------------------------------------------------- */
  /* The example                                                       */
  /* ---------------------------------------------------------------- */

  function Start(): ShipState {
    ShipState(Day12a.Point(0, 0), Day12a.Point(10, 1))
  }

  /** The example's four moves, one at a time. */
  lemma ExampleMoves()
    ensures NavigateStep(Start(), Day12a.NavigationInstruction(10, Day12a.Move(Day12a.Forward)))
         == Some(ShipState(Day12a.Point(100, 10), Day12a.Point(10, 1)))
    ensures NavigateStep(ShipState(Day12a.Point(100, 10), Day12a.Point(10, 1)),
                         Day12a.NavigationInstruction(3, Day12a.Move(Day12a.Absolute(Day12a.North))))
         == Some(ShipState(Day12a.Point(100, 10), Day12a.Point(10, 4)))
    ensures NavigateStep(ShipState(Day12a.Point(100, 10), Day12a.Point(10, 4)),
                         Day12a.NavigationInstruction(7, Day12a.Move(Day12a.Forward)))
         == Some(ShipState(Day12a.Point(170, 38), Day12a.Point(10, 4)))
    ensures NavigateStep(ShipState(Day12a.Point(170, 38), Day12a.Point(4, -10)),
                         Day12a.NavigationInstruction(11, Day12a.Move(Day12a.Forward)))
         == Some(ShipState(Day12a.Point(214, -72), Day12a.Point(4, -10)))
  {
  }

  /** The example's turn: R90 turns the waypoint (10, 4) to (4, -10). */
  lemma ExampleTurn()
    ensures NavigateStep(ShipState(Day12a.Point(170, 38), Day12a.Point(10, 4)),
                         Day12a.NavigationInstruction(90, Day12a.Turn(Day12a.Right)))
         == Some(ShipState(Day12a.Point(170, 38), Day12a.Point(4, -10)))
  {
    RotationExample();
  }

  lemma ExampleModelled()
    ensures AllModelled(Day12a.ExampleInstructions())
  {
    var ins := Day12a.ExampleInstructions();
    forall k | 0 <= k < |ins|
      ensures Modelled(ins[k])
    {
      QuarterTurnsModelled(ins[3]);
    }
  }

  /** The first three instructions take the ship to (170, 38) with the waypoint at (10, 4). */
  lemma ExampleFirstHalf()
    ensures AllModelled(Day12a.ExampleInstructions()) && AllModelled(Day12a.ExampleInstructions()[3..])
    ensures Follow(Start(), Day12a.ExampleInstructions())
         == Follow(ShipState(Day12a.Point(170, 38), Day12a.Point(10, 4)), Day12a.ExampleInstructions()[3..])
  {
    var ins := Day12a.ExampleInstructions();
    ExampleModelled();
    ExampleMoves();
    assert ins[1..] == ins[1..];
    FollowFrom(ShipState(Day12a.Point(100, 10), Day12a.Point(10, 1)), ins, 1, ShipState(Day12a.Point(100, 10), Day12a.Point(10, 4)));
    FollowFrom(ShipState(Day12a.Point(100, 10), Day12a.Point(10, 4)), ins, 2, ShipState(Day12a.Point(170, 38), Day12a.Point(10, 4)));
  }

  /** The example: F10 N3 F7 R90 F11 ends at (214, -72), 286 from the start. */
  lemma Example()
    ensures AllModelled(Day12a.ExampleInstructions())
    ensures Follow(Start(), Day12a.ExampleInstructions()) == Some(ShipState(Day12a.Point(214, -72), Day12a.Point(4, -10)))
    ensures Day12a.Manhattan(Day12a.Point(214, -72), Day12a.Point(0, 0)) == 286
  {
    var ins := Day12a.ExampleInstructions();
    ExampleFirstHalf();
    ExampleMoves();
    ExampleTurn();
    FollowFrom(ShipState(Day12a.Point(170, 38), Day12a.Point(10, 4)), ins, 3, ShipState(Day12a.Point(170, 38), Day12a.Point(4, -10)));
    FollowFrom(ShipState(Day12a.Point(170, 38), Day12a.Point(4, -10)), ins, 4, ShipState(Day12a.Point(214, -72), Day12a.Point(4, -10)));
    assert |ins[5..]| == 0;
  }

  /* ---------------------------------------------------------------- */
  /* The ship                                                          */
  /* ---------------------------------------------------------------- */

  class Ship {
    var location: Point
    var waypoint: Point
    const startingLocation: Point

    /** `Ship::new`: at the starting location, the waypoint 10 east and 1 north. */
    constructor (startingLocation: Point)
      ensures location == startingLocation && this.startingLocation == startingLocation
      ensures waypoint == Day12a.Point(10, 1)
    {
      location := startingLocation;
      this.startingLocation := startingLocation;
      waypoint := Day12a.Point(10, 1);
    }

    function State(): ShipState
      reads this
    {
      ShipState(location, waypoint)
    }

    /** `calc_manhattan_distance`: the distance from the starting location. */
    function CalcManhattanDistance(): (r: nat)
      reads this
      ensures r == 0 <==> location == startingLocation
    {
      Day12a.Manhattan(location, startingLocation)
    }

    /**
     * `navigate`: a turn rotates the waypoint, N, S, E, W move it, and F
     * adds it to the location once per unit of the value. `ok == false` is
     * the overflow panic, with nothing changed.
     */
    method Navigate(instruction: NavigationInstruction) returns (ok: bool)
      requires Modelled(instruction)
      modifies this
      ensures ok <==> NavigateStep(old(State()), instruction).Some?
      ensures ok ==> State() == NavigateStep(old(State()), instruction).value
      ensures !ok ==> State() == old(State())
    {
      match instruction.action
      case Turn(dir) =>
        var angle := Angle(dir, instruction.value);
        if angle.None? {
          return false;
        }
        waypoint := Rotate(waypoint, angle.value);
        return true;
      case Move(Absolute(dir)) =>
        var multiplier := Day12a.Multiplier(dir);
        Day12a.MoveByMultiplier(waypoint, dir, instruction.value);
        waypoint := Day12a.Point(waypoint.x + instruction.value * multiplier.x,
                                 waypoint.y + instruction.value * multiplier.y);
        return true;
      case Move(Forward) =>
        for k := 0 to instruction.value
          invariant waypoint == old(waypoint)
          invariant location == Day12a.Point(old(location).x + k * waypoint.x, old(location).y + k * waypoint.y)
        {
          location := Day12a.Point(location.x + waypoint.x, location.y + waypoint.y);
        }
        return true;
    }

    /** `follow_navigation_instructions`: each instruction in turn; a panic ends the run. */
    method FollowNavigationInstructions(instructions: seq<NavigationInstruction>) returns (ok: bool)
      requires AllModelled(instructions)
      modifies this
      ensures ok <==> Follow(old(State()), instructions).Some?
      ensures ok ==> State() == Follow(old(State()), instructions).value
    {
      for k := 0 to |instructions|
        invariant AllModelled(instructions[..k])
        invariant Follow(old(State()), instructions[..k]) == Some(State())
      {
        assert instructions[..k + 1] == instructions[..k] + [instructions[k]];
        assert AllModelled([instructions[k]]);
        FollowAppend(old(State()), instructions[..k], [instructions[k]]);
        ok := Navigate(instructions[k]);
        if !ok {
          assert AllModelled(instructions[k + 1..]);
          FollowAppend(old(State()), instructions[..k + 1], instructions[k + 1..]);
          assert instructions[..k + 1] + instructions[k + 1..] == instructions;
          return false;
        }
      }
      assert instructions[..|instructions|] == instructions;
      return true;
    }
  }
}
