/**
 * Day 12, part one: a ship follows navigation instructions. An
 * instruction is an action letter and a 16-bit value: N, S, E, W move the
 * ship that far in a compass direction, F moves it forward along the
 * direction it faces, L and R turn it by that many degrees. The answer is
 * the Manhattan distance from the starting point.
 *
 * Headings are degrees clockwise from north (north 0, east 90, south 180,
 * west 270). The turn arithmetic is the source's 16-bit signed arithmetic;
 * an overflow in it, or a turn that ends between the four headings, is a
 * panic, modelled as `None`.
 */
module Day12a {
  import opened Common

  /* ---------------------------------------------------------------- */
  /* Directions                                                        */
  /* ---------------------------------------------------------------- */

  datatype Direction = North | South | East | West

  datatype Point = Point(x: int, y: int)

  /** `From<&Direction> for u16`: the heading in degrees. */
  function Degrees(d: Direction): (r: nat)
    ensures r < 360 && r % 90 == 0
  {
    match d
    case North => 0
    case South => 180
    case East => 90
    case West => 270
  }

  /** Rust's `value % 360` on a signed value: the remainder takes the sign of the dividend. */
  function Rem360(a: int): (r: int)
    ensures -360 < r < 360 && (a >= 0 ==> r >= 0) && (a < 0 ==> r <= 0)
  {
    if a >= 0 then a % 360 else -((-a) % 360)
  }

  /** The angle reduced into [0, 360) as `try_from` does: remainder, then add 360 if negative. */
  function Normalize(value: int): (r: int)
    ensures 0 <= r < 360
  {
    var v := Rem360(value);
    if v < 0 then v + 360 else v
  }

  /** The two-step reduction is the Euclidean remainder. */
  lemma NormalizeIsModulo(value: int)
    ensures Normalize(value) == value % 360
  {
    if value < 0 {
      var n := -value;
      var q, r := n / 360, n % 360;
      assert n == 360 * q + r;
      if r == 0 {
        assert value == 360 * (-q);
      } else {
        assert value == 360 * (-q - 1) + (360 - r);
      }
    }
  }

  /** `TryFrom<i16> for Direction`: the heading at `value` degrees, if it is one of the four. */
  function DirectionOf(value: int): (r: Option<Direction>)
    requires I16_MIN <= value <= I16_MAX
  {
    match Normalize(value)
    case 0 => Some(North)
    case 90 => Some(East)
    case 180 => Some(South)
    case 270 => Some(West)
    case _ => None
  }

  /** `try_from` succeeds exactly on the multiples of 90 and inverts `Degrees` modulo 360. */
  lemma DirectionOfDegrees(value: int)
    requires I16_MIN <= value <= I16_MAX
    ensures DirectionOf(value).Some? <==> value % 90 == 0
    ensures DirectionOf(value).Some? ==> Degrees(DirectionOf(value).value) == value % 360
  {
    NormalizeIsModulo(value);
    var r := value % 360;
    assert value == 360 * (value / 360) + r;
    assert value % 90 == r % 90 by {
      assert value == 90 * (4 * (value / 360)) + r;
    }
  }

  /** Every heading converts back to its direction. */
  lemma DegreesRoundTrip(d: Direction)
    ensures DirectionOf(Degrees(d)) == Some(d)
  {
  }

  /** `as_point_offset_multiplier`: a unit step in the direction, north being +y. */
  function Multiplier(d: Direction): (r: Point)
  {
    match d
    case North => Point(0, 1)
    case South => Point(0, -1)
    case East => Point(1, 0)
    case West => Point(-1, 0)
  }

  /** The unit steps agree with the headings: 90 degrees further clockwise turns (x, y) into (y, -x). */
  lemma MultiplierClockwise(d: Direction)
    ensures Abs(Multiplier(d).x) + Abs(Multiplier(d).y) == 1
    ensures var next := DirectionOf(Degrees(d) + 90);
      next.Some? && Multiplier(next.value) == Point(Multiplier(d).y, -Multiplier(d).x)
  {
  }

  /* ---------------------------------------------------------------- */
  /* Instructions                                                      */
  /* ---------------------------------------------------------------- */

  datatype TurnDirection = Left | Right

  /** `From<&TurnDirection> for i8`: the sign of a turn. */
  function TurnSign(t: TurnDirection): int {
    match t
    case Left => -1
    case Right => 1
  }

  datatype NavigationActionMove = Absolute(dir: Direction) | Forward

  datatype NavigationAction = Turn(turn: TurnDirection) | Move(move: NavigationActionMove)

  /** A `u16`. */
  type U16 = v: nat | v < 0x1_0000

  datatype NavigationInstruction = NavigationInstruction(value: U16, action: NavigationAction)

  datatype ParseError = UnrecognizedNavigationAction(text: string) | ParseIntError

  /** `FromStr for NavigationAction`: one of the seven letters, alone. */
  function ParseAction(s: string): (r: Result<NavigationAction, ParseError>)
    ensures r.Err? ==> r.error == UnrecognizedNavigationAction(s)
  {
    if s == "N" then Ok(Move(Absolute(North)))
    else if s == "S" then Ok(Move(Absolute(South)))
    else if s == "E" then Ok(Move(Absolute(East)))
    else if s == "W" then Ok(Move(Absolute(West)))
    else if s == "L" then Ok(Turn(Left))
    else if s == "R" then Ok(Turn(Right))
    else if s == "F" then Ok(Move(Forward))
    else Err(UnrecognizedNavigationAction(s))
  }

  /** The letter an action is written with. */
  function ActionLetter(a: NavigationAction): char {
    match a
    case Move(Absolute(North)) => 'N'
    case Move(Absolute(South)) => 'S'
    case Move(Absolute(East)) => 'E'
    case Move(Absolute(West)) => 'W'
    case Turn(Left) => 'L'
    case Turn(Right) => 'R'
    case Move(Forward) => 'F'
  }

  /** Exactly the seven letters parse, each to the action written with it. */
  lemma ParseActionLetters(s: string)
    ensures ParseAction(s).Ok? <==> |s| == 1 && s[0] in "NSEWLRF"
    ensures ParseAction(s).Ok? ==> s == [ActionLetter(ParseAction(s).value)]
  {
  }

  /**
   * `s.get(..1)` with `unwrap_or("")`: the first character when it is a
   * one-byte (ASCII) character, the empty string otherwise.
   */
  function Head(s: string): (r: string)
    ensures |r| <= 1 && r <= s
  {
    if |s| > 0 && (s[0] as int) < 128 then s[..1] else ""
  }

  /**
   * `FromStr for NavigationInstruction`: the action from the first
   * character, then the value from the rest as a `u16`; the action's
   * error comes first.
   */
  function ParseInstruction(s: string): (r: Result<NavigationInstruction, ParseError>)
    ensures r.Ok? <==> ParseAction(Head(s)).Ok? && ParseUnsigned(s[1..], 0x1_0000).Some?
  {
    match ParseAction(Head(s))
    case Err(e) => Err(e)
    case Ok(action) =>
      match ParseUnsigned(s[1..], 0x1_0000)
      case None => Err(ParseIntError)
      case Some(value) => Ok(NavigationInstruction(value, action))
  }

  /** An instruction as written in the input: its letter, then its value in decimal. */
  function Format(i: NavigationInstruction): string {
    [ActionLetter(i.action)] + ToDecimal(i.value)
  }

  /** Every instruction with a 16-bit value parses back from its written form. */
  lemma ParseFormat(i: NavigationInstruction)
    ensures ParseInstruction(Format(i)) == Ok(i)
  {
    var s := Format(i);
    assert Head(s) == [ActionLetter(i.action)];
    assert s[1..] == ToDecimal(i.value);
    ParseUnsignedToDecimal(i.value, 0x1_0000);
  }

  /**
   * `parse_instructions`: blank lines are skipped, the others are parsed
   * trimmed, and a line that fails to parse is reported and dropped.
   */
  function ParseInstructions(lines: seq<string>): (r: seq<NavigationInstruction>)
    ensures |r| <= |lines|
  {
    if |lines| == 0 then []
    else
      var line := Trim(lines[0]);
      var rest := ParseInstructions(lines[1..]);
      if |line| == 0 then rest
      else match ParseInstruction(line)
        case Ok(v) => [v] + rest
        case Err(_) => rest
  }

  /** A list written one instruction per line parses back to itself. */
  lemma {:induction false} ParseInstructionsFormat(ins: seq<NavigationInstruction>)
    ensures ParseInstructions(seq(|ins|, k requires 0 <= k < |ins| => Format(ins[k]))) == ins
  {
    var lines := seq(|ins|, k requires 0 <= k < |ins| => Format(ins[k]));
    if |ins| > 0 {
      assert lines[1..] == seq(|ins| - 1, k requires 0 <= k < |ins| - 1 => Format(ins[1..][k]));
      ParseInstructionsFormat(ins[1..]);
      FormatIsTrimmed(ins[0]);
      ParseFormat(ins[0]);
      assert ins == [ins[0]] + ins[1..];
    }
  }

  /** A written instruction has no surrounding whitespace and is not blank. */
  lemma FormatIsTrimmed(i: NavigationInstruction)
    ensures Trim(Format(i)) == Format(i) && |Format(i)| > 0
  {
    var s := Format(i);
    var d := ToDecimal(i.value);
    DecimalOfToDecimal(i.value);
    assert !IsWhitespace(s[0]);
    assert !IsWhitespace(s[|s| - 1]) by {
      assert s[|s| - 1] == d[|d| - 1];
      assert IsDigit(d[|d| - 1]);
    }
    TrimUnchanged(s);
  }

  /* ---------------------------------------------------------------- */
  /* Turning                                                           */
  /* ---------------------------------------------------------------- */

  /** `value as i16` for a `u16`: the bits reinterpreted as a signed value. */
  function AsI16(value: U16): (r: int)
    ensures I16_MIN <= r <= I16_MAX && (r - value) % 0x1_0000 == 0
  {
    if value <= I16_MAX then value else value - 0x1_0000
  }

  /** A 16-bit signed result, or `None` where a debug build panics on overflow. */
  function CheckedI16(v: int): (r: Option<int>)
    ensures r.Some? <==> I16_MIN <= v <= I16_MAX
    ensures r.Some? ==> r.value == v
  {
    if I16_MIN <= v <= I16_MAX then Some(v) else None
  }

  /**
   * The heading after a turn: `i8::from(dir) as i16 * value as i16` added
   * to the current heading in 16-bit arithmetic, then `try_into().unwrap()`.
   */
  function TurnTo(orientation: Direction, t: TurnDirection, value: U16): (r: Option<Direction>)
  {
    match CheckedI16(TurnSign(t) * AsI16(value))
    case None => None
    case Some(change) =>
      match CheckedI16(Degrees(orientation) + change)
      case None => None
      case Some(heading) => DirectionOf(heading)
  }

  /** Below 32498 degrees the turn arithmetic cannot overflow: the heading is the sum. */
  lemma TurnNoOverflow(orientation: Direction, t: TurnDirection, value: nat)
    requires value <= I16_MAX - 270
    ensures TurnTo(orientation, t, value) == DirectionOf(Degrees(orientation) + TurnSign(t) * value)
  {
    if t == Left {
      assert TurnSign(t) * AsI16(value) == -(value as int);
    } else {
      assert TurnSign(t) * AsI16(value) == value;
    }
  }

  /** Adding a multiple of 90 keeps the remainder by 90. */
  lemma QuarterAdd(d: int, v: int)
    requires d % 90 == 0
    ensures (d + v) % 90 == v % 90
  {
    var q, p, r := d / 90, v / 90, v % 90;
    assert d == 90 * q;
    assert v == 90 * p + r;
    assert d + v == 90 * (q + p) + r;
  }

  /** A value is a multiple of 90 exactly when its negation is. */
  lemma QuarterNegate(v: int)
    ensures (-v) % 90 == 0 <==> v % 90 == 0
  {
    var p := v / 90;
    assert v == 90 * p + v % 90;
    if v % 90 == 0 {
      assert -v == 90 * (-p);
    }
    if (-v) % 90 == 0 {
      var m := (-v) / 90;
      assert -v == 90 * m;
      assert v == 90 * (-m);
    }
  }

  /** Adding or subtracting `v` keeps a multiple of 90 exactly when `v` is one. */
  lemma QuarterShift(d: int, v: int, t: TurnDirection)
    requires d % 90 == 0
    ensures (d + TurnSign(t) * v) % 90 == 0 <==> v % 90 == 0
  {
    if t == Right {
      assert TurnSign(t) * v == v;
      QuarterAdd(d, v);
    } else {
      assert TurnSign(t) * v == -v;
      QuarterAdd(d, -v);
      QuarterNegate(v);
    }
  }

  /**
   * Within the range where the 16-bit arithmetic cannot overflow, a turn
   * succeeds exactly by a multiple of 90 degrees and adds or subtracts the
   * value from the heading, modulo 360.
   */
  lemma TurnBy(orientation: Direction, t: TurnDirection, value: nat)
    requires value <= I16_MAX - 270
    ensures TurnTo(orientation, t, value).Some? <==> value % 90 == 0
    ensures TurnTo(orientation, t, value).Some? ==>
      Degrees(TurnTo(orientation, t, value).value) == (Degrees(orientation) + TurnSign(t) * value) % 360
  {
    TurnNoOverflow(orientation, t, value);
    DirectionOfDegrees(Degrees(orientation) + TurnSign(t) * value);
    QuarterShift(Degrees(orientation), value, t);
  }

  /** Turning one way and back by the same angle restores the heading. */
  lemma TurnBack(orientation: Direction, value: nat)
    requires value <= I16_MAX - 270 && value % 90 == 0
    ensures TurnTo(orientation, Right, value).Some?
    ensures TurnTo(TurnTo(orientation, Right, value).value, Left, value) == Some(orientation)
  {
    TurnBy(orientation, Right, value);
    var d := TurnTo(orientation, Right, value).value;
    TurnBy(d, Left, value);
    var e := TurnTo(d, Left, value).value;
    var a := Degrees(orientation) + value;
    assert Degrees(d) == a % 360;
    assert Degrees(e) == (a % 360 - value) % 360;
    assert Degrees(e) == Degrees(orientation) by {
      var q := a / 360;
      assert a == 360 * q + a % 360;
      assert a % 360 - value == 360 * (-q) + Degrees(orientation);
    }
    DegreesInjective(e, orientation);
  }

  lemma DegreesInjective(a: Direction, b: Direction)
    requires Degrees(a) == Degrees(b)
    ensures a == b
  {
  }

  /** A turn that does not end on one of the four headings panics: R45, say. */
  lemma TurnOffHeading(orientation: Direction)
    ensures TurnTo(orientation, Right, 45) == None
  {
    TurnBy(orientation, Right, 45);
  }

  /** An overflow in the 16-bit arithmetic panics: L32768 wraps to -32768, whose negation overflows. */
  lemma TurnOverflow(orientation: Direction)
    ensures TurnTo(orientation, Left, 0x8000) == None
  {
  }

  /* ---------------------------------------------------------------- */
  /* The ship                                                          */
  /* ---------------------------------------------------------------- */

  datatype ShipState = ShipState(location: Point, orientation: Direction)

  /** `value` steps along `d` from `p`. */
  function MoveBy(p: Point, d: Direction, value: nat): Point
  {
    match d
    case North => Point(p.x, p.y + value)
    case South => Point(p.x, p.y - value)
    case East => Point(p.x + value, p.y)
    case West => Point(p.x - value, p.y)
  }

  /** A move of `value` in any direction ends `value` away. */
  lemma MoveByDistance(p: Point, d: Direction, value: nat)
    ensures Manhattan(MoveBy(p, d, value), p) == value
  {
  }

  /** A move adds the value times the direction's unit step. */
  lemma MoveByMultiplier(p: Point, d: Direction, value: nat)
    ensures MoveBy(p, d, value) == Point(p.x + value * Multiplier(d).x, p.y + value * Multiplier(d).y)
  {
  }

  /**
   * The state after one instruction: a turn changes only the heading, a
   * move changes only the location, by the value along the named
   * direction or, for F, along the heading. `None` is the turn's panic.
   */
  function NavigateStep(s: ShipState, i: NavigationInstruction): (r: Option<ShipState>)
    ensures i.action.Move? ==> r.Some? && r.value.orientation == s.orientation
    ensures i.action.Move? && i.action.move.Absolute? ==> r.Some? && r.value.location == MoveBy(s.location, i.action.move.dir, i.value)
    ensures i.action.Move? && i.action.move.Forward? ==> r.Some? && r.value.location == MoveBy(s.location, s.orientation, i.value)
    ensures i.action.Turn? ==> (r.Some? <==> TurnTo(s.orientation, i.action.turn, i.value).Some?)
    ensures i.action.Turn? && r.Some? ==> r.value == ShipState(s.location, TurnTo(s.orientation, i.action.turn, i.value).value)
  {
    match i.action
    case Turn(t) =>
      (match TurnTo(s.orientation, t, i.value)
       case None => None
       case Some(d) => Some(ShipState(s.location, d)))
    case Move(m) =>
      var d := if m.Absolute? then m.dir else s.orientation;
      Some(ShipState(MoveBy(s.location, d, i.value), s.orientation))
  }

  /** The state after the instructions in turn, `None` once one panics. */
  function Follow(s: ShipState, ins: seq<NavigationInstruction>): Option<ShipState>
    decreases |ins|
  {
    if |ins| == 0 then Some(s)
    else match NavigateStep(s, ins[0])
      case None => None
      case Some(s') => Follow(s', ins[1..])
  }

  /** Following `a + b` is following `a`, then `b`. */
  lemma {:induction false} FollowAppend(s: ShipState, a: seq<NavigationInstruction>, b: seq<NavigationInstruction>)
    ensures Follow(s, a + b) == match Follow(s, a) case None => None case Some(t) => Follow(t, b)
    decreases |a|
  {
    if |a| > 0 {
      assert (a + b)[0] == a[0];
      assert (a + b)[1..] == a[1..] + b;
      match NavigateStep(s, a[0])
      case None =>
      case Some(s') => FollowAppend(s', a[1..], b);
    } else {
      assert a + b == b;
    }
  }

  /** `calc_manhattan_distance` between two points. */
  function Manhattan(a: Point, b: Point): nat {
    Abs(a.x - b.x) + Abs(a.y - b.y)
  }

  function Abs(v: int): nat {
    if v >= 0 then v else -v
  }

  /** The instructions of the example: F10 N3 F7 R90 F11. */
  function ExampleInstructions(): seq<NavigationInstruction> {
    [NavigationInstruction(10, Move(Forward)), NavigationInstruction(3, Move(Absolute(North))),
     NavigationInstruction(7, Move(Forward)), NavigationInstruction(90, Turn(Right)),
     NavigationInstruction(11, Move(Forward))]
  }

  /** Following `ins[k..]` from `s` is the step `ins[k]`, then `ins[k + 1..]`. */
  lemma FollowFrom(s: ShipState, ins: seq<NavigationInstruction>, k: nat, t: ShipState)
    requires k < |ins| && NavigateStep(s, ins[k]) == Some(t)
    ensures Follow(s, ins[k..]) == Follow(t, ins[k + 1..])
  {
    assert ins[k..][0] == ins[k] && ins[k..][1..] == ins[k + 1..];
  }

  /** The example's instructions, one by one. */
  lemma ExampleAt()
    ensures var ins := ExampleInstructions();
      |ins| == 5 && ins[0] == NavigationInstruction(10, Move(Forward)) && ins[1] == NavigationInstruction(3, Move(Absolute(North)))
      && ins[2] == NavigationInstruction(7, Move(Forward)) && ins[3] == NavigationInstruction(90, Turn(Right))
      && ins[4] == NavigationInstruction(11, Move(Forward))
  {
  }

  /** The example's four moves, one at a time. */
  lemma ExampleMoves()
    ensures NavigateStep(ShipState(Point(0, 0), East), NavigationInstruction(10, Move(Forward))) == Some(ShipState(Point(10, 0), East))
    ensures NavigateStep(ShipState(Point(10, 0), East), NavigationInstruction(3, Move(Absolute(North)))) == Some(ShipState(Point(10, 3), East))
    ensures NavigateStep(ShipState(Point(10, 3), East), NavigationInstruction(7, Move(Forward))) == Some(ShipState(Point(17, 3), East))
    ensures NavigateStep(ShipState(Point(17, 3), South), NavigationInstruction(11, Move(Forward))) == Some(ShipState(Point(17, -8), South))
  {
  }

  /** The example's turn: R90 from east faces south. */
  lemma ExampleTurn()
    ensures NavigateStep(ShipState(Point(17, 3), East), NavigationInstruction(90, Turn(Right))) == Some(ShipState(Point(17, 3), South))
  {
    TurnNoOverflow(East, Right, 90);
  }

  /** The first three instructions of the example take the ship to (17, 3). */
  lemma ExampleFirstHalf()
    ensures Follow(ShipState(Point(0, 0), East), ExampleInstructions())
         == Follow(ShipState(Point(17, 3), East), ExampleInstructions()[3..])
  {
    ExampleMoves();
    ExampleAt();
    FollowThree(ShipState(Point(0, 0), East), ShipState(Point(10, 0), East), ShipState(Point(10, 3), East),
                ShipState(Point(17, 3), East), ExampleInstructions());
  }

  /** Three steps that each succeed take the ship from `s0` to `s3`, the rest following from there. */
  lemma FollowThree(s0: ShipState, s1: ShipState, s2: ShipState, s3: ShipState, ins: seq<NavigationInstruction>)
    requires |ins| >= 3
    requires NavigateStep(s0, ins[0]) == Some(s1) && NavigateStep(s1, ins[1]) == Some(s2) && NavigateStep(s2, ins[2]) == Some(s3)
    ensures Follow(s0, ins) == Follow(s3, ins[3..])
  {
    assert ins[0..] == ins;
    FollowFrom(s0, ins, 0, s1);
    FollowFrom(s1, ins, 1, s2);
    FollowFrom(s2, ins, 2, s3);
  }

  /** The example: from the origin facing east the ship ends at (17, -8), 25 away. */
  lemma Example()
    ensures Follow(ShipState(Point(0, 0), East), ExampleInstructions()) == Some(ShipState(Point(17, -8), South))
    ensures Manhattan(Point(17, -8), Point(0, 0)) == 25
  {
    var ins := ExampleInstructions();
    ExampleFirstHalf();
    ExampleMoves();
    ExampleTurn();
    ExampleAt();
    FollowFrom(ShipState(Point(17, 3), East), ins, 3, ShipState(Point(17, 3), South));
    FollowFrom(ShipState(Point(17, 3), South), ins, 4, ShipState(Point(17, -8), South));
    assert |ins[5..]| == 0;
  }

  class Ship {
    var location: Point
    var orientation: Direction
    const startingLocation: Point

    /** `Ship::new`: at the starting location with the given heading. */
    constructor (startingLocation: Point, orientation: Direction)
      ensures location == startingLocation && this.startingLocation == startingLocation
      ensures this.orientation == orientation
    {
      location := startingLocation;
      this.startingLocation := startingLocation;
      this.orientation := orientation;
    }

    function State(): ShipState
      reads this
    {
      ShipState(location, orientation)
    }

    /** `calc_manhattan_distance`: the distance from the starting location. */
    function CalcManhattanDistance(): (r: nat)
      reads this
      ensures r == 0 <==> location == startingLocation
    {
      Manhattan(location, startingLocation)
    }

    /**
     * `navigate`: a turn sets the heading to the direction at the old
     * heading minus (L) or plus (R) the value; a move adds the value times
     * the direction's unit step to the location. `ok == false` is the
     * turn's panic, with nothing changed.
     */
    method Navigate(instruction: NavigationInstruction) returns (ok: bool)
      modifies this
      ensures ok <==> NavigateStep(old(State()), instruction).Some?
      ensures ok ==> State() == NavigateStep(old(State()), instruction).value
      ensures !ok ==> State() == old(State())
    {
      match instruction.action
      case Turn(dir) =>
        var change := CheckedI16(TurnSign(dir) * AsI16(instruction.value));
        if change.None? {
          return false;
        }
        var heading := CheckedI16(Degrees(orientation) + change.value);
        if heading.None? {
          return false;
        }
        var next := DirectionOf(heading.value);
        if next.None? {
          return false;
        }
        orientation := next.value;
        return true;
      case Move(m) =>
        var multiplier := match m
          case Absolute(dir) => Multiplier(dir)
          case Forward => Multiplier(orientation);
        MoveByMultiplier(location, if m.Absolute? then m.dir else orientation, instruction.value);
        location := Point(location.x + instruction.value * multiplier.x,
                          location.y + instruction.value * multiplier.y);
        return true;
    }

    /** `follow_navigation_instructions`: each instruction in turn; a panic ends the run. */
    method FollowNavigationInstructions(instructions: seq<NavigationInstruction>) returns (ok: bool)
      modifies this
      ensures ok <==> Follow(old(State()), instructions).Some?
      ensures ok ==> State() == Follow(old(State()), instructions).value
    {
      for k := 0 to |instructions|
        invariant Follow(old(State()), instructions[..k]) == Some(State())
      {
        ghost var before := State();
        assert instructions[..k + 1] == instructions[..k] + [instructions[k]];
        FollowAppend(old(State()), instructions[..k], [instructions[k]]);
        ok := Navigate(instructions[k]);
        if !ok {
          FollowAppend(old(State()), instructions[..k + 1], instructions[k + 1..]);
          assert instructions[..k + 1] + instructions[k + 1..] == instructions;
          return false;
        }
      }
      assert instructions[..|instructions|] == instructions;
      return true;
    }
  }
}
